/** The ledger tables of the faction bank (players, accounts, transactions),
    the two settings rows, the errors the handlers return, and the lookups
    the handlers run against those tables. Rows are kept in id order, so a
    table is a sequence whose ids strictly increase. */
module Ledger {

  datatype Option<+T> = None | Some(value: T)

  /** What a handler returns: its payload, or the error it returns before
      any commit (so an error never changes a table). */
  datatype Result<+T> = Ok(value: T) | Err(error: Error)

  datatype Error =
    | PlayerNameRequired
    | StartsAtRequired
    | InvalidStartsAt
    | NoActiveRace
    | NoRacesFound
    | PlayerNotFound(ign: string)
    | NoActiveAccount(ign: string)
    | AlreadyEnrolled(ign: string)
    | NotEnrolled(ign: string)
    | AlreadyWinner(ign: string, position: int)
    | InsufficientBalance(required: real, available: real)
    | Winner1Required
      /** An exception caught by a handler's `except`: a missing settings
          row or a NULL column read with `float(...)`, or a rejected query. */
    | Internal

  /** The HTTP status each handler pairs with its error. */
  function HttpStatus(e: Error): (code: int)
    ensures code == 404 <==> (e.NoActiveRace? || e.NoRacesFound? || e.PlayerNotFound? || e.NoActiveAccount?)
    ensures code == 500 <==> e.Internal?
    ensures code == 400 || code == 404 || code == 500
  {
    match e
    case NoActiveRace | NoRacesFound | PlayerNotFound(_) | NoActiveAccount(_) => 404
    case Internal => 500
    case _ => 400
  }

  /** Python's `x or d` on a nullable numeric column: NULL and 0 both fall back to `d`. */
  function OrElse(x: Option<real>, d: real): (r: real)
    ensures x.Some? && x.value != 0.0 ==> r == x.value
    ensures x.None? || x.value == 0.0 ==> r == d
  {
    if x.Some? && x.value != 0.0 then x.value else d
  }

  // ---------------------------------------------------------------- tables

  datatype Player = Player(id: nat, ign: string)

  datatype AccountStatus = Active | Closed

  datatype Account = Account(id: nat, playerId: nat, status: AccountStatus, balance: real)

  datatype TxnType = Deposit | Payout | OtherType(name: string)

  /** A transaction row. `effectiveDelta` and `balanceAfter` stay NULL when
      the inserting statement does not supply them. */
  datatype Txn = Txn(id: nat, accountId: nat, txnType: TxnType, amount: real,
                     effectiveDelta: Option<real>, balanceAfter: Option<real>,
                     feePct: Option<real>, note: string)

  /** The `settings` row (id 1). */
  datatype BankSettings = BankSettings(payoutFeePct: Option<real>, normalRate: Option<real>,
                                       premiumRate: Option<real>, premiumRequirement: Option<real>)

  /** The `horse_race_settings` row (id 1). */
  datatype RaceSettings = RaceSettings(winnerCutPct: Option<real>, secondCutPct: Option<real>,
                                       thirdCutPct: Option<real>, entryFee: Option<real>,
                                       imperialCutPct: Option<real>, rules: Option<string>)

  // ------------------------------------------------- ids (AUTO_INCREMENT)

  ghost predicate PlayerIdsIncreasing(ps: seq<Player>) {
    forall i, j :: 0 <= i < j < |ps| ==> ps[i].id < ps[j].id
  }

  ghost predicate AccountIdsIncreasing(accs: seq<Account>) {
    forall i, j :: 0 <= i < j < |accs| ==> accs[i].id < accs[j].id
  }

  ghost predicate TxnIdsIncreasing(txns: seq<Txn>) {
    forall i, j :: 0 <= i < j < |txns| ==> txns[i].id < txns[j].id
  }

  /** The id an INSERT into `players` receives. */
  function NextPlayerId(ps: seq<Player>): (n: nat)
    ensures PlayerIdsIncreasing(ps) ==> forall p :: p in ps ==> p.id < n
  {
    if |ps| == 0 then 1 else ps[|ps| - 1].id + 1
  }

  /** The id an INSERT into `accounts` receives. */
  function NextAccountId(accs: seq<Account>): (n: nat)
    ensures AccountIdsIncreasing(accs) ==> forall a :: a in accs ==> a.id < n
  {
    if |accs| == 0 then 1 else accs[|accs| - 1].id + 1
  }

  /** The id an INSERT into `transactions` receives. */
  function NextTxnId(txns: seq<Txn>): (n: nat)
    ensures TxnIdsIncreasing(txns) ==> forall t :: t in txns ==> t.id < n
  {
    if |txns| == 0 then 1 else txns[|txns| - 1].id + 1
  }

  // -------------------------------------------------------------- lookups

  /** `SELECT id FROM players WHERE ign=%s`. */
  function FindPlayer(ps: seq<Player>, ign: string): (r: Option<Player>)
    ensures r.Some? ==> r.value in ps && r.value.ign == ign
    ensures r.None? ==> forall p :: p in ps ==> p.ign != ign
  {
    if |ps| == 0 then None
    else if ps[0].ign == ign then Some(ps[0])
    else FindPlayer(ps[1..], ign)
  }

  /** `SELECT ign FROM players WHERE id=%s`: the lookup by the id column that
      names winners and jockeys, and that joins accounts to their players. It
      differs from `FindPlayer` only in the key compared. */
  function FindPlayerById(ps: seq<Player>, id: nat): (r: Option<Player>)
    ensures r.Some? ==> r.value in ps && r.value.id == id
    ensures r.None? ==> forall p :: p in ps ==> p.id != id
  {
    if |ps| == 0 then None
    else if ps[0].id == id then Some(ps[0])
    else FindPlayerById(ps[1..], id)
  }

  /** `JOIN accounts a ON a.id = t.account_id`. */
  function FindAccountById(accs: seq<Account>, id: nat): (r: Option<Account>)
    ensures r.Some? ==> r.value in accs && r.value.id == id
    ensures r.None? ==> forall a :: a in accs ==> a.id != id
  {
    if |accs| == 0 then None
    else if accs[0].id == id then Some(accs[0])
    else FindAccountById(accs[1..], id)
  }

  /** `SELECT id, balance FROM accounts WHERE player_id=%s AND status='active'`. */
  function ActiveAccount(accs: seq<Account>, playerId: nat): (r: Option<Account>)
    ensures r.Some? ==> r.value in accs && r.value.playerId == playerId && r.value.status == Active
    ensures r.None? ==> forall a :: a in accs ==> !(a.playerId == playerId && a.status == Active)
  {
    if |accs| == 0 then None
    else if accs[0].playerId == playerId && accs[0].status == Active then Some(accs[0])
    else ActiveAccount(accs[1..], playerId)
  }

  // --------------------------------------------------------- bank debt

  function ActiveBalance(a: Account): real {
    if a.status == Active then a.balance else 0.0
  }

  /** `SELECT COALESCE(SUM(balance), 0) FROM accounts WHERE status='active'`. */
  function TotalDebt(accs: seq<Account>): (total: real)
    ensures (forall a :: a in accs ==> a.status != Active) ==> total == 0.0
    ensures (forall a :: a in accs && a.status == Active ==> a.balance >= 0.0) ==> total >= 0.0
  {
    if |accs| == 0 then 0.0 else ActiveBalance(accs[0]) + TotalDebt(accs[1..])
  }

  /** Appending an account row adds its balance to the debt if it is active. */
  lemma {:induction false} TotalDebtAppend(accs: seq<Account>, a: Account)
    ensures TotalDebt(accs + [a]) == TotalDebt(accs) + ActiveBalance(a)
  {
    if |accs| == 0 {
      assert accs + [a] == [a];
    } else {
      assert (accs + [a])[1..] == accs[1..] + [a];
      TotalDebtAppend(accs[1..], a);
    }
  }

  /** Looking up a name after appending a player finds the earlier player if
      there is one, and the appended one otherwise. */
  lemma {:induction false} FindPlayerAppend(ps: seq<Player>, p: Player, ign: string)
    ensures FindPlayer(ps + [p], ign) ==
              if FindPlayer(ps, ign).Some? then FindPlayer(ps, ign)
              else if p.ign == ign then Some(p) else None
  {
    if |ps| == 0 {
      assert ps + [p] == [p];
    } else {
      assert (ps + [p])[1..] == ps[1..] + [p];
      FindPlayerAppend(ps[1..], p, ign);
    }
  }

  /** The same for the active-account lookup. */
  lemma {:induction false} ActiveAccountAppend(accs: seq<Account>, a: Account, playerId: nat)
    ensures ActiveAccount(accs + [a], playerId) ==
              if ActiveAccount(accs, playerId).Some? then ActiveAccount(accs, playerId)
              else if a.playerId == playerId && a.status == Active then Some(a) else None
  {
    if |accs| == 0 {
      assert accs + [a] == [a];
    } else {
      assert (accs + [a])[1..] == accs[1..] + [a];
      ActiveAccountAppend(accs[1..], a, playerId);
    }
  }

  // ------------------------------------------------- account provisioning

  /** The player and account tables after provisioning, and the account id returned. */
  datatype Provisioned = Provisioned(players: seq<Player>, accounts: seq<Account>, accountId: nat)

  /** A new account row: the schema's defaults give it status 'active' and balance 0. */
  function NewAccount(accs: seq<Account>, playerId: nat): Account {
    Account(NextAccountId(accs), playerId, Active, 0.0)
  }

  /** `ensure_player_account`: look the player up by ign and insert it if
      missing, then look up its active account and insert one if missing. */
  function Provision(ps: seq<Player>, accs: seq<Account>, ign: string): (r: Provisioned)
    ensures FindPlayer(ps, ign).Some? ==> r.players == ps
    ensures FindPlayer(ps, ign).None? ==> r.players == ps + [Player(NextPlayerId(ps), ign)]
    ensures FindPlayer(r.players, ign).Some?
    ensures var pid := FindPlayer(r.players, ign).value.id;
            ActiveAccount(r.accounts, pid).Some? && ActiveAccount(r.accounts, pid).value.id == r.accountId &&
            (ActiveAccount(accs, pid).Some? ==> r.accounts == accs) &&
            (ActiveAccount(accs, pid).None? ==> r.accounts == accs + [NewAccount(accs, pid)])
  {
    var players' := if FindPlayer(ps, ign).Some? then ps else ps + [Player(NextPlayerId(ps), ign)];
    FindPlayerAppend(ps, Player(NextPlayerId(ps), ign), ign);
    var pid := FindPlayer(players', ign).value.id;
    var existing := ActiveAccount(accs, pid);
    ActiveAccountAppend(accs, NewAccount(accs, pid), pid);
    if existing.Some? then Provisioned(players', accs, existing.value.id)
    else Provisioned(players', accs + [NewAccount(accs, pid)], NextAccountId(accs))
  }

  /** Provisioning twice is provisioning once: the second call finds both
      rows, inserts nothing and returns the same account id. */
  lemma {:induction false} ProvisionIdempotent(ps: seq<Player>, accs: seq<Account>, ign: string)
    ensures var r := Provision(ps, accs, ign);
            Provision(r.players, r.accounts, ign) == r
  {
  }

  /** Provisioning never changes the bank's debt: a new account starts at 0. */
  lemma {:induction false} ProvisionKeepsDebt(ps: seq<Player>, accs: seq<Account>, ign: string)
    ensures TotalDebt(Provision(ps, accs, ign).accounts) == TotalDebt(accs)
  {
    var r := Provision(ps, accs, ign);
    if r.accounts != accs {
      var pid := FindPlayer(r.players, ign).value.id;
      TotalDebtAppend(accs, NewAccount(accs, pid));
    }
  }

  // ------------------------------------------------- table invariants

  ghost predicate UniqueIgns(ps: seq<Player>) {
    forall i, j :: 0 <= i < j < |ps| ==> ps[i].ign != ps[j].ign
  }

  /** At most one active account per player. */
  ghost predicate OneActiveAccountPerPlayer(accs: seq<Account>) {
    forall i, j :: 0 <= i < j < |accs| && accs[i].status == Active && accs[j].status == Active
      ==> accs[i].playerId != accs[j].playerId
  }

  ghost predicate PlayerExists(ps: seq<Player>, id: nat) {
    exists p :: p in ps && p.id == id
  }

  /** The invariants of the player and account tables. */
  ghost predicate LedgerValid(ps: seq<Player>, accs: seq<Account>) {
    PlayerIdsIncreasing(ps) && UniqueIgns(ps) &&
    AccountIdsIncreasing(accs) && OneActiveAccountPerPlayer(accs) &&
    forall a :: a in accs ==> PlayerExists(ps, a.playerId)
  }

  /** Inserting a player whose ign is not taken keeps the invariants. */
  lemma {:induction false} AppendPlayerKeepsLedgerValid(ps: seq<Player>, accs: seq<Account>, ign: string)
    requires LedgerValid(ps, accs)
    requires FindPlayer(ps, ign).None?
    ensures LedgerValid(ps + [Player(NextPlayerId(ps), ign)], accs)
  {
    var ps' := ps + [Player(NextPlayerId(ps), ign)];
    assert forall i :: 0 <= i < |ps| ==> ps[i] in ps && ps'[i] == ps[i];
    forall a | a in accs
      ensures PlayerExists(ps', a.playerId)
    {
      var p :| p in ps && p.id == a.playerId;
      assert p in ps';
    }
  }

  /** Inserting an active account for an existing player without one keeps the invariants. */
  lemma {:induction false} AppendAccountKeepsLedgerValid(ps: seq<Player>, accs: seq<Account>, pid: nat)
    requires LedgerValid(ps, accs)
    requires PlayerExists(ps, pid)
    requires ActiveAccount(accs, pid).None?
    ensures LedgerValid(ps, accs + [NewAccount(accs, pid)])
  {
    var a := NewAccount(accs, pid);
    var accs' := accs + [a];
    forall i, j | 0 <= i < j < |accs'|
      ensures accs'[i].id < accs'[j].id
    {
      if j == |accs| {
        assert accs[i] in accs;
      }
    }
    forall i, j | 0 <= i < j < |accs'| && accs'[i].status == Active && accs'[j].status == Active
      ensures accs'[i].playerId != accs'[j].playerId
    {
      if j == |accs| {
        assert accs[i] in accs;
      }
    }
    forall b | b in accs'
      ensures PlayerExists(ps, b.playerId)
    {
      if b != a {
        assert b in accs;
      }
    }
  }

  /** Provisioning keeps ids increasing, igns unique, at most one active
      account per player, and every account owned by an existing player. */
  lemma {:induction false} ProvisionKeepsLedgerValid(ps: seq<Player>, accs: seq<Account>, ign: string)
    requires LedgerValid(ps, accs)
    ensures var r := Provision(ps, accs, ign);
            LedgerValid(r.players, r.accounts)
  {
    var r := Provision(ps, accs, ign);
    if r.players != ps {
      AppendPlayerKeepsLedgerValid(ps, accs, ign);
    }
    var p := FindPlayer(r.players, ign).value;
    assert PlayerExists(r.players, p.id);
    if r.accounts != accs {
      AppendAccountKeepsLedgerValid(r.players, accs, p.id);
    }
  }
}
