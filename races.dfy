/** The race engine's decisions: which race the handlers act on, what an
    enrolment costs and contributes, which error a handler returns (in the
    order the handler checks), the prize a winner slot pays, and the read-only
    race view. The handlers that write these decisions into the tables are in
    module Bank. */
module Races {
  import opened Ledger

  /** A winner slot: the routes winner1, winner2 and winner3. */
  type Position = p: int | 1 <= p <= 3 witness 1

  /** A `horse_races` row. Times are already-parsed timestamps. */
  datatype Race = Race(id: nat, name: Option<string>, raceName: Option<string>, prizePool: real,
                       startsAt: Option<int>, endsAt: Option<int>,
                       winner1: Option<nat>, winner2: Option<nat>, winner3: Option<nat>)
  {
    /** Column `winner{pos}_id`. */
    function Winner(pos: Position): Option<nat> {
      if pos == 1 then winner1 else if pos == 2 then winner2 else winner3
    }

    /** `UPDATE horse_races SET winner{pos}_id = pid`. */
    function WithWinner(pos: Position, pid: nat): (r: Race)
      ensures r.Winner(pos) == Some(pid)
      ensures forall q: Position :: q != pos ==> r.Winner(q) == Winner(q)
      ensures r.id == id && r.name == name && r.raceName == raceName && r.prizePool == prizePool
      ensures r.startsAt == startsAt && r.endsAt == endsAt
    {
      if pos == 1 then this.(winner1 := Some(pid))
      else if pos == 2 then this.(winner2 := Some(pid))
      else this.(winner3 := Some(pid))
    }
  }

  /** A `horse_jockeys` row; rows are kept in the order they were inserted. */
  datatype Jockey = Jockey(raceId: nat, playerId: nat)

  /** Three values, one per winner slot: cut percentages or prize amounts. */
  datatype Triple = Triple(first: real, second: real, third: real) {
    function At(pos: Position): real {
      if pos == 1 then first else if pos == 2 then second else third
    }
  }

  ghost predicate RaceIdsIncreasing(rs: seq<Race>) {
    forall i, j :: 0 <= i < j < |rs| ==> rs[i].id < rs[j].id
  }

  /** The id an INSERT into `horse_races` receives. */
  function NextRaceId(rs: seq<Race>): (n: nat)
    ensures RaceIdsIncreasing(rs) ==> forall r :: r in rs ==> r.id < n
  {
    if |rs| == 0 then 1 else rs[|rs| - 1].id + 1
  }

  /** A winner column read as a Python condition: NULL and 0 are both unset. */
  predicate SlotSet(slot: Option<nat>) {
    slot.Some? && slot.value != 0
  }

  /** Python's rendering of `race['name']` inside a note (NULL prints as "None"). */
  function NameText(name: Option<string>): string {
    if name.Some? then name.value else "None"
  }

  // ------------------------------------------------------ the active race

  /** `SELECT ... FROM horse_races WHERE ends_at IS NULL ORDER BY id DESC LIMIT 1`:
      the index of the open race with the highest id. */
  function ActiveRaceIndex(rs: seq<Race>): (r: Option<nat>)
    ensures r.Some? ==> r.value < |rs| && rs[r.value].endsAt.None?
    ensures r.Some? ==> forall j :: r.value < j < |rs| ==> rs[j].endsAt.Some?
  {
    if |rs| == 0 then None
    else if rs[|rs| - 1].endsAt.None? then Some(|rs| - 1)
    else ActiveRaceIndex(rs[..|rs| - 1])
  }

  /** There is no active race exactly when every race has ended. */
  lemma {:induction false} NoActiveRaceIffAllEnded(rs: seq<Race>)
    ensures ActiveRaceIndex(rs).None? <==> forall j :: 0 <= j < |rs| ==> rs[j].endsAt.Some?
  {
    if |rs| > 0 && rs[|rs| - 1].endsAt.Some? {
      NoActiveRaceIffAllEnded(rs[..|rs| - 1]);
      assert forall j :: 0 <= j < |rs| - 1 ==> rs[..|rs| - 1][j] == rs[j];
    }
  }

  /** With ids in insertion order, the active race has the highest id among
      the open races, as `ORDER BY id DESC LIMIT 1` demands. */
  lemma {:induction false} ActiveRaceHasHighestOpenId(rs: seq<Race>)
    requires RaceIdsIncreasing(rs)
    requires ActiveRaceIndex(rs).Some?
    ensures forall j :: 0 <= j < |rs| && rs[j].endsAt.None? ==> rs[j].id <= rs[ActiveRaceIndex(rs).value].id
  {
  }

  /** The active race depends only on the `ends_at` column: updating the
      prize pool or a winner slot never changes which race is active. */
  lemma {:induction false} ActiveRaceIgnoresOtherColumns(rs: seq<Race>, rs': seq<Race>)
    requires |rs| == |rs'|
    requires forall j :: 0 <= j < |rs| ==> rs[j].endsAt == rs'[j].endsAt
    ensures ActiveRaceIndex(rs) == ActiveRaceIndex(rs')
  {
    if |rs| > 0 {
      ActiveRaceIgnoresOtherColumns(rs[..|rs| - 1], rs'[..|rs| - 1]);
    }
  }

  /** Ending the active race hands "active" to the highest open race below it. */
  lemma {:induction false} EndingActiveRace(rs: seq<Race>, now: int)
    requires ActiveRaceIndex(rs).Some?
    ensures var k := ActiveRaceIndex(rs).value;
            var rs' := rs[k := rs[k].(endsAt := Some(now))];
            ActiveRaceIndex(rs') == ActiveRaceIndex(rs[..k]) &&
            (ActiveRaceIndex(rs').Some? ==> ActiveRaceIndex(rs').value < k)
  {
    var k := ActiveRaceIndex(rs).value;
    var rs' := rs[k := rs[k].(endsAt := Some(now))];
    EndedSuffix(rs', k);
    assert rs'[..k] == rs[..k];
  }

  /** Races that have all ended at the end of the table do not affect which race is active. */
  lemma {:induction false} EndedSuffix(rs: seq<Race>, m: nat)
    requires m <= |rs|
    requires forall j :: m <= j < |rs| ==> rs[j].endsAt.Some?
    ensures ActiveRaceIndex(rs) == ActiveRaceIndex(rs[..m])
  {
    if m < |rs| {
      assert rs[|rs| - 1].endsAt.Some?;
      assert rs[..|rs| - 1][..m] == rs[..m];
      EndedSuffix(rs[..|rs| - 1], m);
    } else {
      assert rs[..m] == rs;
    }
  }

  // ---------------------------------------------------------- create race

  /** The `starts_at` field of a create-race request: absent or empty, not
      ISO 8601, or a parsed timestamp. */
  datatype StartsAtInput = Missing | Unparseable | Parsed(at: int)

  /** The two checks of the create-race handler. */
  function CheckCreateRace(startsAt: StartsAtInput): (r: Result<int>)
    ensures r == Err(StartsAtRequired) <==> startsAt.Missing?
    ensures r == Err(InvalidStartsAt) <==> startsAt.Unparseable?
    ensures r.Ok? <==> startsAt.Parsed?
    ensures r.Ok? ==> r.value == startsAt.at
  {
    match startsAt
    case Missing => Err(StartsAtRequired)
    case Unparseable => Err(InvalidStartsAt)
    case Parsed(at) => Ok(at)
  }

  /** The row the create-race handler inserts: the requested name (or
      "Imperial Race " and today's date) in both name columns, an empty prize
      pool, no end and no winners. */
  function NewRace(races: seq<Race>, name: Option<string>, at: int, today: string): (race: Race)
    ensures RaceIdsIncreasing(races) ==> forall r :: r in races ==> r.id < race.id
    ensures race.name == race.raceName
    ensures race.name == Some(if name.Some? then name.value else "Imperial Race " + today)
    ensures race.prizePool == 0.0 && race.startsAt == Some(at) && race.endsAt.None?
    ensures forall q: Position :: race.Winner(q).None?
  {
    var n := if name.Some? then name.value else "Imperial Race " + today;
    Race(NextRaceId(races), Some(n), Some(n), 0.0, Some(at), None, None, None, None)
  }

  /** A newly created race becomes the active race, whatever was active before. */
  lemma {:induction false} NewRaceIsActive(races: seq<Race>, name: Option<string>, at: int, today: string)
    ensures ActiveRaceIndex(races + [NewRace(races, name, at, today)]) == Some(|races|)
  {
  }

  // ------------------------------------------------------------ enrolment

  /** What one enrolment costs and how it splits. */
  datatype EntryTerms = EntryTerms(fee: real, imperialCut: real, contribution: real)

  /** Lines 130-141 of the enrol handler: a NULL or 0 entry fee means 100, a
      NULL or 0 imperial cut means 10 percent; the house keeps the cut and the
      rest goes to the prize pool. */
  function EntryTermsOf(s: RaceSettings): (t: EntryTerms)
    ensures t.fee == (if s.entryFee.Some? && s.entryFee.value != 0.0 then s.entryFee.value else 100.0)
    ensures t.imperialCut ==
              t.fee * (if s.imperialCutPct.Some? && s.imperialCutPct.value != 0.0
                       then s.imperialCutPct.value else 10.0) / 100.0
    ensures t.imperialCut + t.contribution == t.fee
  {
    var fee := OrElse(s.entryFee, 100.0);
    var cut := fee * (OrElse(s.imperialCutPct, 10.0) / 100.0);
    EntryTerms(fee, cut, fee - cut)
  }

  /** With a non-negative fee and a cut between 0 and 100 percent, the pool
      receives between nothing and the whole fee. */
  lemma ContributionWithinFee(s: RaceSettings)
    requires s.entryFee.Some? ==> s.entryFee.value >= 0.0
    requires s.imperialCutPct.Some? ==> 0.0 <= s.imperialCutPct.value <= 100.0
    ensures 0.0 <= EntryTermsOf(s).contribution <= EntryTermsOf(s).fee
  {
    var t := EntryTermsOf(s);
    var pct := OrElse(s.imperialCutPct, 10.0);
    assert 0.0 <= pct <= 100.0;
    assert t.fee >= 0.0;
    assert t.imperialCut == t.fee * pct / 100.0;
    assert t.fee * pct <= t.fee * 100.0;
    assert 0.0 <= t.fee * pct;
  }

  /** Everything the enrol handler has read once all its checks passed. */
  datatype EnrollPlan = EnrollPlan(raceIndex: nat, player: Player, account: Account, terms: EntryTerms)

  /** The checks of the enrol handler, in the handler's order; the first
      that fails decides the error. */
  function CheckEnroll(ign: string, races: seq<Race>, players: seq<Player>, jockeys: seq<Jockey>,
                       accounts: seq<Account>, settings: Option<RaceSettings>): (r: Result<EnrollPlan>)
    ensures r == Err(PlayerNameRequired) <==> ign == ""
    ensures r == Err(NoActiveRace) <==> ign != "" && ActiveRaceIndex(races).None?
    ensures r.Err? && r.error.PlayerNotFound? ==> r.error.ign == ign && forall p :: p in players ==> p.ign != ign
    ensures r.Err? && r.error.AlreadyEnrolled? ==>
              r.error.ign == ign && ActiveRaceIndex(races).Some? && FindPlayer(players, ign).Some? &&
              Jockey(races[ActiveRaceIndex(races).value].id, FindPlayer(players, ign).value.id) in jockeys
    ensures r.Err? && r.error.NoActiveAccount? ==>
              r.error.ign == ign && FindPlayer(players, ign).Some? &&
              forall a :: a in accounts ==> !(a.playerId == FindPlayer(players, ign).value.id && a.status == Active)
    ensures r.Err? && r.error.InsufficientBalance? ==>
              settings.Some? && r.error.required == EntryTermsOf(settings.value).fee &&
              r.error.available < r.error.required
    ensures r.Ok? ==>
              var k := r.value.raceIndex;
              ign != "" && ActiveRaceIndex(races) == Some(k) &&
              r.value.player in players && r.value.player.ign == ign &&
              Jockey(races[k].id, r.value.player.id) !in jockeys &&
              r.value.account in accounts && r.value.account.playerId == r.value.player.id &&
              r.value.account.status == Active &&
              settings.Some? && r.value.terms == EntryTermsOf(settings.value) &&
              r.value.account.balance >= r.value.terms.fee
  {
    if ign == "" then Err(PlayerNameRequired)
    else match ActiveRaceIndex(races)
      case None => Err(NoActiveRace)
      case Some(k) =>
        match FindPlayer(players, ign)
        case None => Err(PlayerNotFound(ign))
        case Some(p) =>
          if Jockey(races[k].id, p.id) in jockeys then Err(AlreadyEnrolled(ign))
          else match ActiveAccount(accounts, p.id)
            case None => Err(NoActiveAccount(ign))
            case Some(a) =>
              if settings.None? then Err(Internal)
              else
                var t := EntryTermsOf(settings.value);
                if a.balance < t.fee then Err(InsufficientBalance(t.fee, a.balance))
                else Ok(EnrollPlan(k, p, a, t))
  }

  /** The balance test is the only money check: a player who passes every
      other check is enrolled exactly when the balance covers the fee, so a
      balance equal to the fee is accepted. */
  lemma {:induction false} EnrollAcceptsCoveredFee(ign: string, races: seq<Race>, players: seq<Player>,
                                                   jockeys: seq<Jockey>, accounts: seq<Account>,
                                                   s: RaceSettings)
    requires ign != "" && ActiveRaceIndex(races).Some? && FindPlayer(players, ign).Some?
    requires Jockey(races[ActiveRaceIndex(races).value].id, FindPlayer(players, ign).value.id) !in jockeys
    requires ActiveAccount(accounts, FindPlayer(players, ign).value.id).Some?
    ensures var balance := ActiveAccount(accounts, FindPlayer(players, ign).value.id).value.balance;
            var fee := EntryTermsOf(s).fee;
            (CheckEnroll(ign, races, players, jockeys, accounts, Some(s)).Ok? <==> balance >= fee) &&
            (balance < fee ==> CheckEnroll(ign, races, players, jockeys, accounts, Some(s))
                                 == Err(InsufficientBalance(fee, balance)))
  {
  }

  /** The first check that fails decides the enrol handler's answer: once
      the name is given and a race is open, a missing player, an existing
      jockey row, a missing active account and a missing settings row each
      give their own error, in that order. */
  lemma {:induction false} EnrollCheckOrder(ign: string, races: seq<Race>, players: seq<Player>,
                                            jockeys: seq<Jockey>, accounts: seq<Account>,
                                            settings: Option<RaceSettings>)
    requires ign != "" && ActiveRaceIndex(races).Some?
    ensures FindPlayer(players, ign).None? ==>
              CheckEnroll(ign, races, players, jockeys, accounts, settings) == Err(PlayerNotFound(ign))
    ensures FindPlayer(players, ign).Some? &&
            Jockey(races[ActiveRaceIndex(races).value].id, FindPlayer(players, ign).value.id) in jockeys ==>
              CheckEnroll(ign, races, players, jockeys, accounts, settings) == Err(AlreadyEnrolled(ign))
    ensures FindPlayer(players, ign).Some? &&
            Jockey(races[ActiveRaceIndex(races).value].id, FindPlayer(players, ign).value.id) !in jockeys &&
            ActiveAccount(accounts, FindPlayer(players, ign).value.id).None? ==>
              CheckEnroll(ign, races, players, jockeys, accounts, settings) == Err(NoActiveAccount(ign))
    ensures FindPlayer(players, ign).Some? &&
            Jockey(races[ActiveRaceIndex(races).value].id, FindPlayer(players, ign).value.id) !in jockeys &&
            ActiveAccount(accounts, FindPlayer(players, ign).value.id).Some? && settings.None? ==>
              CheckEnroll(ign, races, players, jockeys, accounts, settings) == Err(Internal)
  {
  }

  /** The `horse_races` table after a successful enrolment. */
  function EnrolledRaces(races: seq<Race>, plan: EnrollPlan): (rs: seq<Race>)
    requires plan.raceIndex < |races|
    ensures |rs| == |races|
    ensures rs[plan.raceIndex].prizePool == races[plan.raceIndex].prizePool + plan.terms.contribution
    ensures forall j :: 0 <= j < |races| ==>
              rs[j].id == races[j].id && rs[j].endsAt == races[j].endsAt &&
              rs[j].name == races[j].name && rs[j].raceName == races[j].raceName &&
              rs[j].startsAt == races[j].startsAt &&
              (forall q: Position :: rs[j].Winner(q) == races[j].Winner(q))
    ensures forall j :: 0 <= j < |races| && j != plan.raceIndex ==> rs[j] == races[j]
  {
    var race := races[plan.raceIndex];
    races[plan.raceIndex := race.(prizePool := race.prizePool + plan.terms.contribution)]
  }

  /** The `payout` row the enrol handler inserts; the database fills in
      neither the effective delta nor the balance after. */
  function EntryFeeTxn(txns: seq<Txn>, races: seq<Race>, plan: EnrollPlan): (t: Txn)
    requires plan.raceIndex < |races|
    ensures TxnIdsIncreasing(txns) ==> forall u :: u in txns ==> u.id < t.id
    ensures t.accountId == plan.account.id && t.txnType == Payout && t.amount == plan.terms.fee
    ensures t.effectiveDelta.None? && t.balanceAfter.None? && t.feePct.None?
  {
    Txn(NextTxnId(txns), plan.account.id, Payout, plan.terms.fee, None, None, None,
        "Horse race entry fee - " + NameText(races[plan.raceIndex].name))
  }

  /** A second enrolment of the same player in the same race is rejected:
      the first one recorded the jockey row, and the active race is still
      the same race. */
  lemma {:induction false} EnrollAgainRejected(ign: string, races: seq<Race>, players: seq<Player>, jockeys: seq<Jockey>,
                            accounts: seq<Account>, settings: Option<RaceSettings>)
    requires CheckEnroll(ign, races, players, jockeys, accounts, settings).Ok?
    ensures var plan := CheckEnroll(ign, races, players, jockeys, accounts, settings).value;
            var jockeys' := jockeys + [Jockey(races[plan.raceIndex].id, plan.player.id)];
            CheckEnroll(ign, EnrolledRaces(races, plan), players, jockeys', accounts, settings)
              == Err(AlreadyEnrolled(ign))
  {
    var plan := CheckEnroll(ign, races, players, jockeys, accounts, settings).value;
    ActiveRaceIgnoresOtherColumns(races, EnrolledRaces(races, plan));
  }

  // -------------------------------------------------------------- winners

  /** Lines 387-389 of `_set_winner`: the first slot other than `pos` that
      already holds `pid`. */
  function OtherSlot(race: Race, pid: nat, pos: Position): (r: Option<Position>)
    ensures r.Some? ==> r.value != pos && race.Winner(r.value) == Some(pid)
    ensures r.Some? ==> forall q: Position :: q < r.value && q != pos ==> race.Winner(q) != Some(pid)
    ensures r.None? ==> forall q: Position :: q != pos ==> race.Winner(q) != Some(pid)
  {
    if 1 != pos && race.winner1 == Some(pid) then Some(1)
    else if 2 != pos && race.winner2 == Some(pid) then Some(2)
    else if 3 != pos && race.winner3 == Some(pid) then Some(3)
    else None
  }

  /** The loop over the slots 1 to 3, as the handler runs it. */
  method FindOtherSlot(race: Race, pid: nat, pos: Position) returns (held: Option<Position>)
    ensures held == OtherSlot(race, pid, pos)
  {
    for i := 1 to 4
      invariant forall q: Position :: q < i && q != pos ==> race.Winner(q) != Some(pid)
    {
      if i != pos && race.Winner(i) == Some(pid) {
        return Some(i);
      }
    }
    return None;
  }

  /** `float(settings['winner_cut_pct'])` and the other two: no settings row
      or a NULL cut raises, which the handler turns into an internal error. */
  function CutsOf(settings: Option<RaceSettings>): (r: Option<Triple>)
    ensures r.Some? <==> settings.Some? && settings.value.winnerCutPct.Some? &&
                         settings.value.secondCutPct.Some? && settings.value.thirdCutPct.Some?
    ensures r.Some? ==> r.value == Triple(settings.value.winnerCutPct.value,
                                          settings.value.secondCutPct.value,
                                          settings.value.thirdCutPct.value)
  {
    if settings.None? then None
    else
      var s := settings.value;
      if s.winnerCutPct.None? || s.secondCutPct.None? || s.thirdCutPct.None? then None
      else Some(Triple(s.winnerCutPct.value, s.secondCutPct.value, s.thirdCutPct.value))
  }

  /** `prize_pool * (pct / 100)`. */
  function Prize(pool: real, cuts: Triple, pos: Position): real {
    pool * (cuts.At(pos) / 100.0)
  }

  /** The three prizes a pool pays out are each non-negative and together at
      most the pool, as long as the cuts are non-negative and sum to at most 100. */
  lemma PrizesWithinPool(pool: real, cuts: Triple)
    requires pool >= 0.0
    requires cuts.first >= 0.0 && cuts.second >= 0.0 && cuts.third >= 0.0
    requires cuts.first + cuts.second + cuts.third <= 100.0
    ensures forall q: Position :: Prize(pool, cuts, q) >= 0.0
    ensures Prize(pool, cuts, 1) + Prize(pool, cuts, 2) + Prize(pool, cuts, 3) <= pool
  {
    var sum := cuts.first + cuts.second + cuts.third;
    assert Prize(pool, cuts, 1) + Prize(pool, cuts, 2) + Prize(pool, cuts, 3) == pool * (sum / 100.0);
    assert sum / 100.0 <= 1.0;
    assert pool * (sum / 100.0) <= pool * 1.0;
  }

  /** Everything `_set_winner` has read once all its checks passed. */
  datatype WinnerPlan = WinnerPlan(raceIndex: nat, player: Player, account: Account, prize: real)

  /** The checks of `_set_winner`, in its order: active race, player, jockey
      row, other winner slot, settings, account. */
  function CheckSetWinner(ign: string, pos: Position, races: seq<Race>, players: seq<Player>,
                          jockeys: seq<Jockey>, accounts: seq<Account>,
                          settings: Option<RaceSettings>): (r: Result<WinnerPlan>)
    ensures r == Err(NoActiveRace) <==> ActiveRaceIndex(races).None?
    ensures r.Err? && r.error.PlayerNotFound? ==> r.error.ign == ign && forall p :: p in players ==> p.ign != ign
    ensures r.Err? && r.error.NotEnrolled? ==>
              r.error.ign == ign && ActiveRaceIndex(races).Some? && FindPlayer(players, ign).Some? &&
              Jockey(races[ActiveRaceIndex(races).value].id, FindPlayer(players, ign).value.id) !in jockeys
    ensures r.Err? && r.error.AlreadyWinner? ==>
              r.error.ign == ign && r.error.position != pos && ActiveRaceIndex(races).Some? &&
              FindPlayer(players, ign).Some? && 1 <= r.error.position <= 3 &&
              races[ActiveRaceIndex(races).value].Winner(r.error.position) == Some(FindPlayer(players, ign).value.id)
    ensures r == Err(Internal) ==> CutsOf(settings).None?
    ensures r.Ok? ==>
              var k := r.value.raceIndex;
              ActiveRaceIndex(races) == Some(k) &&
              r.value.player in players && r.value.player.ign == ign &&
              Jockey(races[k].id, r.value.player.id) in jockeys &&
              (forall q: Position :: q != pos ==> races[k].Winner(q) != Some(r.value.player.id)) &&
              r.value.account in accounts && r.value.account.playerId == r.value.player.id &&
              r.value.account.status == Active &&
              CutsOf(settings).Some? &&
              r.value.prize == races[k].prizePool * CutsOf(settings).value.At(pos) / 100.0
  {
    match ActiveRaceIndex(races)
    case None => Err(NoActiveRace)
    case Some(k) =>
      match FindPlayer(players, ign)
      case None => Err(PlayerNotFound(ign))
      case Some(p) =>
        if Jockey(races[k].id, p.id) !in jockeys then Err(NotEnrolled(ign))
        else match OtherSlot(races[k], p.id, pos)
          case Some(i) => Err(AlreadyWinner(ign, i))
          case None =>
            match CutsOf(settings)
            case None => Err(Internal)
            case Some(cuts) =>
              match ActiveAccount(accounts, p.id)
              case None => Err(NoActiveAccount(ign))
              case Some(a) => Ok(WinnerPlan(k, p, a, Prize(races[k].prizePool, cuts, pos)))
  }

  /** The first check that fails decides `_set_winner`'s answer once a race
      is open: a missing player, a missing jockey row, the player in another
      slot (the lowest such slot is reported), missing cuts and a missing
      active account each give their own error, in that order; when all pass
      the winner is paid the pool times the slot's cut. */
  lemma {:induction false} SetWinnerCheckOrder(ign: string, pos: Position, races: seq<Race>, players: seq<Player>,
                                               jockeys: seq<Jockey>, accounts: seq<Account>,
                                               settings: Option<RaceSettings>)
    requires ActiveRaceIndex(races).Some?
    ensures FindPlayer(players, ign).None? ==>
              CheckSetWinner(ign, pos, races, players, jockeys, accounts, settings) == Err(PlayerNotFound(ign))
    ensures FindPlayer(players, ign).Some? &&
            Jockey(races[ActiveRaceIndex(races).value].id, FindPlayer(players, ign).value.id) !in jockeys ==>
              CheckSetWinner(ign, pos, races, players, jockeys, accounts, settings) == Err(NotEnrolled(ign))
    ensures FindPlayer(players, ign).Some? &&
            Jockey(races[ActiveRaceIndex(races).value].id, FindPlayer(players, ign).value.id) in jockeys &&
            OtherSlot(races[ActiveRaceIndex(races).value], FindPlayer(players, ign).value.id, pos).Some? ==>
              CheckSetWinner(ign, pos, races, players, jockeys, accounts, settings) ==
              Err(AlreadyWinner(ign, OtherSlot(races[ActiveRaceIndex(races).value], FindPlayer(players, ign).value.id, pos).value))
    ensures FindPlayer(players, ign).Some? &&
            Jockey(races[ActiveRaceIndex(races).value].id, FindPlayer(players, ign).value.id) in jockeys &&
            OtherSlot(races[ActiveRaceIndex(races).value], FindPlayer(players, ign).value.id, pos).None? &&
            CutsOf(settings).None? ==>
              CheckSetWinner(ign, pos, races, players, jockeys, accounts, settings) == Err(Internal)
    ensures FindPlayer(players, ign).Some? &&
            Jockey(races[ActiveRaceIndex(races).value].id, FindPlayer(players, ign).value.id) in jockeys &&
            OtherSlot(races[ActiveRaceIndex(races).value], FindPlayer(players, ign).value.id, pos).None? &&
            CutsOf(settings).Some? && ActiveAccount(accounts, FindPlayer(players, ign).value.id).None? ==>
              CheckSetWinner(ign, pos, races, players, jockeys, accounts, settings) == Err(NoActiveAccount(ign))
    ensures FindPlayer(players, ign).Some? &&
            Jockey(races[ActiveRaceIndex(races).value].id, FindPlayer(players, ign).value.id) in jockeys &&
            OtherSlot(races[ActiveRaceIndex(races).value], FindPlayer(players, ign).value.id, pos).None? &&
            CutsOf(settings).Some? && ActiveAccount(accounts, FindPlayer(players, ign).value.id).Some? ==>
              var k := ActiveRaceIndex(races).value;
              CheckSetWinner(ign, pos, races, players, jockeys, accounts, settings) ==
              Ok(WinnerPlan(k, FindPlayer(players, ign).value, ActiveAccount(accounts, FindPlayer(players, ign).value.id).value,
                            Prize(races[k].prizePool, CutsOf(settings).value, pos)))
  {
  }

  /** The `horse_races` table after a successful `_set_winner`. */
  function WinnerRaces(races: seq<Race>, pos: Position, plan: WinnerPlan): (rs: seq<Race>)
    requires plan.raceIndex < |races|
    ensures |rs| == |races|
    ensures rs[plan.raceIndex].Winner(pos) == Some(plan.player.id)
    ensures forall q: Position :: q != pos ==> rs[plan.raceIndex].Winner(q) == races[plan.raceIndex].Winner(q)
    ensures forall j :: 0 <= j < |races| ==>
              rs[j].id == races[j].id && rs[j].endsAt == races[j].endsAt && rs[j].prizePool == races[j].prizePool &&
              rs[j].name == races[j].name && rs[j].raceName == races[j].raceName &&
              rs[j].startsAt == races[j].startsAt
    ensures forall j :: 0 <= j < |races| && j != plan.raceIndex ==> rs[j] == races[j]
  {
    races[plan.raceIndex := races[plan.raceIndex].WithWinner(pos, plan.player.id)]
  }

  function PositionText(pos: Position): string {
    if pos == 1 then "1" else if pos == 2 then "2" else "3"
  }

  /** The `deposit` row `_set_winner` inserts for the prize. */
  function PrizeTxn(txns: seq<Txn>, races: seq<Race>, pos: Position, plan: WinnerPlan): (t: Txn)
    requires plan.raceIndex < |races|
    ensures TxnIdsIncreasing(txns) ==> forall u :: u in txns ==> u.id < t.id
    ensures t.accountId == plan.account.id && t.txnType == Deposit && t.amount == plan.prize
    ensures t.effectiveDelta.None? && t.balanceAfter.None? && t.feePct.None?
  {
    Txn(NextTxnId(txns), plan.account.id, Deposit, plan.prize, None, None, None,
        "Horse race prize - Position " + PositionText(pos) + " - " + NameText(races[plan.raceIndex].name))
  }

  /** Assigning the same slot again is accepted and pays the same prize a
      second time: the pool was not reduced by the first payment. */
  lemma {:induction false} SameSlotPaysAgain(ign: string, pos: Position, races: seq<Race>, players: seq<Player>,
                          jockeys: seq<Jockey>, accounts: seq<Account>, settings: Option<RaceSettings>)
    requires CheckSetWinner(ign, pos, races, players, jockeys, accounts, settings).Ok?
    ensures var plan := CheckSetWinner(ign, pos, races, players, jockeys, accounts, settings).value;
            CheckSetWinner(ign, pos, WinnerRaces(races, pos, plan), players, jockeys, accounts, settings)
              == Ok(plan)
  {
    var plan := CheckSetWinner(ign, pos, races, players, jockeys, accounts, settings).value;
    var rs := WinnerRaces(races, pos, plan);
    ActiveRaceIgnoresOtherColumns(races, rs);
    var k := plan.raceIndex;
    assert OtherSlot(rs[k], plan.player.id, pos).None?;
  }

  /** Once a player holds a slot, asking for a different slot for them is
      rejected, naming the slot they hold. */
  lemma {:induction false} OtherSlotRejected(ign: string, pos: Position, pos': Position, races: seq<Race>, players: seq<Player>,
                          jockeys: seq<Jockey>, accounts: seq<Account>, settings: Option<RaceSettings>)
    requires CheckSetWinner(ign, pos, races, players, jockeys, accounts, settings).Ok?
    requires pos' != pos
    ensures var plan := CheckSetWinner(ign, pos, races, players, jockeys, accounts, settings).value;
            CheckSetWinner(ign, pos', WinnerRaces(races, pos, plan), players, jockeys, accounts, settings)
              == Err(AlreadyWinner(ign, pos))
  {
    var plan := CheckSetWinner(ign, pos, races, players, jockeys, accounts, settings).value;
    var rs := WinnerRaces(races, pos, plan);
    ActiveRaceIgnoresOtherColumns(races, rs);
    var k := plan.raceIndex;
    var held := OtherSlot(rs[k], plan.player.id, pos');
    assert rs[k].Winner(pos) == Some(plan.player.id);
    assert held.Some?;
    assert held.value == pos;
  }

  // ------------------------------------------------------------ end race

  /** The checks of the end-race handler: an active race whose winner 1 is set. */
  function CheckEndRace(races: seq<Race>): (r: Result<nat>)
    ensures r == Err(NoActiveRace) <==> ActiveRaceIndex(races).None?
    ensures r == Err(Winner1Required) <==>
              ActiveRaceIndex(races).Some? && !SlotSet(races[ActiveRaceIndex(races).value].winner1)
    ensures r.Ok? <==> ActiveRaceIndex(races).Some? && SlotSet(races[ActiveRaceIndex(races).value].winner1)
    ensures r.Ok? ==> ActiveRaceIndex(races) == Some(r.value)
  {
    match ActiveRaceIndex(races)
    case None => Err(NoActiveRace)
    case Some(k) => if !SlotSet(races[k].winner1) then Err(Winner1Required) else Ok(k)
  }

  // ----------------------------------------------------------- race info

  /** `COALESCE(r.name, r.race_name, 'Unnamed Race')`. */
  function DisplayName(race: Race): (s: string)
    ensures race.name.Some? ==> s == race.name.value
    ensures race.name.None? && race.raceName.Some? ==> s == race.raceName.value
    ensures race.name.None? && race.raceName.None? ==> s == "Unnamed Race"
  {
    if race.name.Some? then race.name.value
    else if race.raceName.Some? then race.raceName.value
    else "Unnamed Race"
  }

  /** A race made by the create-race handler shows the name it was given,
      or "Imperial Race " and the day it was made. */
  lemma NewRaceDisplayName(races: seq<Race>, name: Option<string>, at: int, today: string)
    ensures DisplayName(NewRace(races, name, at, today)) ==
            (if name.Some? then name.value else "Imperial Race " + today)
  {
  }

  /** `SELECT COUNT(*) FROM horse_jockeys hj WHERE hj.race_id = r.id`. */
  function JockeyCount(jockeys: seq<Jockey>, raceId: nat): nat {
    if |jockeys| == 0 then 0
    else (if jockeys[0].raceId == raceId then 1 else 0) + JockeyCount(jockeys[1..], raceId)
  }

  /** Some jockey row of the race names an existing player with this ign. */
  ghost predicate RidesIn(jockeys: seq<Jockey>, players: seq<Player>, raceId: nat, ign: string) {
    exists j :: j in jockeys && j.raceId == raceId && FindPlayerById(players, j.playerId).Some? &&
                FindPlayerById(players, j.playerId).value.ign == ign
  }

  /** The ign a jockey row contributes to the race's list, if it is a row of
      that race and its player exists (the inner join on players). */
  function JockeyName(j: Jockey, players: seq<Player>, raceId: nat): seq<string> {
    if j.raceId == raceId && FindPlayerById(players, j.playerId).Some?
    then [FindPlayerById(players, j.playerId).value.ign]
    else []
  }

  /** The igns of the race's jockeys in joining order: every ign listed rides
      in the race, and every jockey row of the race whose player exists is
      listed. */
  function JockeyNames(jockeys: seq<Jockey>, players: seq<Player>, raceId: nat): (names: seq<string>)
    ensures |names| <= JockeyCount(jockeys, raceId)
    ensures forall n :: n in names ==> RidesIn(jockeys, players, raceId, n)
    ensures forall j :: j in jockeys && j.raceId == raceId && FindPlayerById(players, j.playerId).Some? ==>
              FindPlayerById(players, j.playerId).value.ign in names
  {
    if |jockeys| == 0 then []
    else
      var rest := JockeyNames(jockeys[1..], players, raceId);
      assert forall j :: j in jockeys[1..] ==> j in jockeys;
      assert forall j :: j in jockeys ==> j == jockeys[0] || j in jockeys[1..];
      JockeyName(jockeys[0], players, raceId) + rest
  }

  /** Rows are read in the order they were inserted: a new jockey row puts
      its player's ign at the end of the list. */
  lemma {:induction false} JockeyNamesAppend(jockeys: seq<Jockey>, players: seq<Player>, raceId: nat, j: Jockey)
    ensures JockeyNames(jockeys + [j], players, raceId) ==
            JockeyNames(jockeys, players, raceId) + JockeyName(j, players, raceId)
  {
    if |jockeys| == 0 {
      assert jockeys + [j] == [j];
    } else {
      assert (jockeys + [j])[1..] == jockeys[1..] + [j];
      JockeyNamesAppend(jockeys[1..], players, raceId, j);
    }
  }

  /** When every jockey row names an existing player, the names listed are
      exactly as many as the jockey count. */
  lemma {:induction false} JockeyNamesComplete(jockeys: seq<Jockey>, players: seq<Player>, raceId: nat)
    requires forall j :: j in jockeys ==> PlayerExists(players, j.playerId)
    ensures |JockeyNames(jockeys, players, raceId)| == JockeyCount(jockeys, raceId)
  {
    if |jockeys| > 0 {
      assert jockeys[0] in jockeys;
      var p :| p in players && p.id == jockeys[0].playerId;
      assert FindPlayerById(players, jockeys[0].playerId).Some?;
      JockeyNamesComplete(jockeys[1..], players, raceId);
    }
  }

  /** The ign in a winner slot: named exactly when the slot is set (not NULL,
      not 0) and its player exists. */
  function WinnerName(players: seq<Player>, slot: Option<nat>): (r: Option<string>)
    ensures r.Some? <==> SlotSet(slot) && PlayerExists(players, slot.value)
    ensures r.Some? ==> exists p :: p in players && p.id == slot.value && p.ign == r.value
  {
    if !SlotSet(slot) then None
    else match FindPlayerById(players, slot.value)
      case None => None
      case Some(p) => Some(p.ign)
  }

  datatype RaceView = RaceView(raceId: nat, name: string, prizePool: real,
                               startsAt: Option<int>, endsAt: Option<int>,
                               jockeyCount: nat, jockeys: seq<string>,
                               winner1: Option<string>, winner2: Option<string>, winner3: Option<string>,
                               distribution: Triple)

  /** The race-info handler: the highest-id race (open or not), its jockeys
      and winners, and a computed preview of the three prizes. */
  function RaceInfo(races: seq<Race>, players: seq<Player>, jockeys: seq<Jockey>,
                    settings: Option<RaceSettings>): (r: Result<RaceView>)
    ensures r == Err(NoRacesFound) <==> |races| == 0
    ensures r == Err(Internal) <==> |races| > 0 && CutsOf(settings).None?
    ensures r.Ok? ==>
              var race := races[|races| - 1];
              r.value.raceId == race.id && r.value.prizePool == race.prizePool &&
              r.value.jockeyCount == JockeyCount(jockeys, race.id) &&
              r.value.name == DisplayName(race) &&
              r.value.startsAt == race.startsAt && r.value.endsAt == race.endsAt &&
              r.value.jockeys == JockeyNames(jockeys, players, race.id) &&
              r.value.winner1 == WinnerName(players, race.winner1) &&
              r.value.winner2 == WinnerName(players, race.winner2) &&
              r.value.winner3 == WinnerName(players, race.winner3) &&
              (forall q: Position :: r.value.distribution.At(q) == Prize(race.prizePool, CutsOf(settings).value, q))
  {
    if |races| == 0 then Err(NoRacesFound)
    else
      var race := races[|races| - 1];
      match CutsOf(settings)
      case None => Err(Internal)
      case Some(cuts) =>
        Ok(RaceView(race.id, DisplayName(race), race.prizePool, race.startsAt, race.endsAt,
                    JockeyCount(jockeys, race.id), JockeyNames(jockeys, players, race.id),
                    WinnerName(players, race.winner1), WinnerName(players, race.winner2),
                    WinnerName(players, race.winner3),
                    Triple(Prize(race.prizePool, cuts, 1), Prize(race.prizePool, cuts, 2),
                           Prize(race.prizePool, cuts, 3))))
  }

  /** When the active race is also the latest race, the prize `_set_winner`
      pays for a slot is the one the race-info preview shows for that slot. */
  lemma {:induction false} PreviewIsPaid(ign: string, pos: Position, races: seq<Race>, players: seq<Player>,
                      jockeys: seq<Jockey>, accounts: seq<Account>, settings: Option<RaceSettings>)
    requires CheckSetWinner(ign, pos, races, players, jockeys, accounts, settings).Ok?
    requires |races| > 0 && ActiveRaceIndex(races) == Some(|races| - 1)
    ensures RaceInfo(races, players, jockeys, settings).Ok?
    ensures RaceInfo(races, players, jockeys, settings).value.distribution.At(pos)
              == CheckSetWinner(ign, pos, races, players, jockeys, accounts, settings).value.prize
  {
  }
}
