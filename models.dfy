/**
 * The wallet and expense tables and the two operations of the core that
 * change them: recording an expense (`Expense.save`) and evaluating an
 * expense sharing (`ExpenseSharing.shared_value`), which allocates the shares,
 * builds the mirror ledger and settles every selected user in turn.
 */
module Models {
  import opened Wrappers
  import opened Allocation
  import opened Settlement

  // ---------------------------------------------------------------------------
  // Specifications
  // ---------------------------------------------------------------------------

  /**
   * Recording an expense: refused with `InsufficientFunds` when the payer's
   * balance is below the amount, otherwise the payer is debited by exactly the
   * amount. A recorded expense therefore never leaves the payer negative.
   */
  function RecordExpense(w: Wallets, e: Expense): (r: Result<Wallets, Error>)
    requires e.paidBy in w
    ensures r.Failure? <==> w[e.paidBy] < e.amount
    ensures r.Failure? ==> r.error == InsufficientFunds
    ensures r.Success? ==> r.value.Keys == w.Keys && r.value[e.paidBy] == w[e.paidBy] - e.amount
    ensures r.Success? ==> r.value[e.paidBy] >= 0.0
    ensures r.Success? ==> forall u :: u in w && u != e.paidBy ==> r.value[u] == w[u]
  {
    if w[e.paidBy] < e.amount then Failure(InsufficientFunds)
    else Success(w[e.paidBy := w[e.paidBy] - e.amount])
  }

  /** The money of a recorded expense leaves the wallets: their total drops by the amount. */
  lemma RecordExpenseTotal(w: Wallets, e: Expense, accounts: seq<User>)
    requires e.paidBy in w && RecordExpense(w, e).Success?
    requires Distinct(accounts) && e.paidBy in accounts && forall y :: y in accounts ==> y in w
    ensures Sum(RecordExpense(w, e).value, accounts) == Sum(w, accounts) - e.amount
  {
    SumUpdate(w, accounts, e.paidBy, -e.amount);
    assert RecordExpense(w, e).value == w[e.paidBy := w[e.paidBy] + -e.amount];
  }

  /**
   * What `shared_value` needs of the tables: every wallet it reads exists
   * (each user gets one when saved), the selected users are distinct (a
   * many-to-many relation) and the payer is not among them.
   */
  predicate Settleable(w: Wallets, s: Sharing)
  {
    && s.expense.paidBy in w
    && s.expense.paidBy !in s.splitWith
    && Distinct(s.splitWith)
    && forall u :: u in s.splitWith ==> u in w
  }

  /** The same amount for each of `n` users. */
  function Repeat(amount: real, n: nat): (r: seq<real>)
  {
    seq(n, _ => amount)
  }

  /**
   * Evaluating `shared_value` from wallets `w`: the ledger it returns (or the
   * exception it raises) and the wallets afterwards. Every user is settled
   * with the same amount, `SettlementAmount`, as the code does.
   */
  function SharedValueOf(w: Wallets, s: Sharing): (r: (Result<Ledger, Error>, Wallets))
    requires Settleable(w, s)
    ensures r.0.Failure? <==> Shares(s).Failure?
    ensures r.0.Failure? ==> r.1 == w
    ensures r.1.Keys == w.Keys
    ensures r.0.Success? ==> r.0.value.Keys == Pairs(s.expense.paidBy, s.splitWith)
  {
    match Shares(s)
    case Failure(e) => (Failure(e), w)
    case Success(shares) =>
      var payer := s.expense.paidBy;
      var users := s.splitWith;
      var opening := Allocate(payer, users, shares, s.splitMethod != Equal);
      var amount := SettlementAmount(s, shares);
      var (after, ledger) := Settle(w, opening, payer, users, Repeat(amount, |users|));
      (Success(ledger), after)
  }

  /** An exception from `shared_value` is raised before any wallet changes. */
  lemma SharedValueFailsCleanly(w: Wallets, s: Sharing)
    requires Settleable(w, s)
    ensures SharedValueOf(w, s).0.Failure? <==> Shares(s).Failure?
    ensures SharedValueOf(w, s).0.Failure? ==>
      SharedValueOf(w, s).0.error == Shares(s).error && SharedValueOf(w, s).1 == w
  {
  }

  /**
   * A successful `shared_value` in closed form. Writing `a` for the
   * settlement amount: the ledger holds both mirror entries of every selected
   * user and nothing else; each entry keeps that user's own share; a user
   * whose balance is at least `a` pays `a` to the payer and both entries read
   * `Paid`; any other user keeps the balance and both entries read `Unpaid`;
   * the payer gains `a` for each user who paid; no other wallet changes.
   */
  lemma SharedValueOutcome(w: Wallets, s: Sharing)
    requires Settleable(w, s) && Shares(s).Success?
    ensures var (r, after) := SharedValueOf(w, s);
      var shares, payer, users := Shares(s).value, s.expense.paidBy, s.splitWith;
      var a := SettlementAmount(s, shares);
      && r.Success? && r.value.Keys == Pairs(payer, users) && (payer, payer) !in r.value && after.Keys == w.Keys
      && (forall k :: 0 <= k < |users| ==>
            && r.value[(users[k], payer)].splitAmount == shares[k]
            && r.value[(payer, users[k])].splitAmount == shares[k]
            && r.value[(users[k], payer)].status == (if w[users[k]] >= a then Paid else Unpaid)
            && r.value[(payer, users[k])].status == r.value[(users[k], payer)].status
            && after[users[k]] == Debited(w[users[k]], a))
      && after[payer] == w[payer] + PaidTotal(w, users, Repeat(a, |users|))
      && (forall x :: x in w && x != payer && x !in users ==> after[x] == w[x])
  {
    var shares, payer, users := Shares(s).value, s.expense.paidBy, s.splitWith;
    var opening := Allocate(payer, users, shares, s.splitMethod != Equal);
    var a := SettlementAmount(s, shares);
    AllocateEntries(payer, users, shares, s.splitMethod != Equal);
    SettleBalances(w, opening, payer, users, Repeat(a, |users|));
    SettleEntries(w, opening, payer, users, Repeat(a, |users|));
  }

  /**
   * `shared_value` conserves money: over any distinct accounts holding the
   * payer and every selected user, the total balance is unchanged.
   */
  lemma SharedValueConserves(w: Wallets, s: Sharing, accounts: seq<User>)
    requires Settleable(w, s)
    requires Distinct(accounts) && s.expense.paidBy in accounts
    requires (forall u :: u in s.splitWith ==> u in accounts) && forall y :: y in accounts ==> y in w
    ensures Sum(SharedValueOf(w, s).1, accounts) == Sum(w, accounts)
  {
    if Shares(s).Success? {
      var shares := Shares(s).value;
      var opening := Allocate(s.expense.paidBy, s.splitWith, shares, s.splitMethod != Equal);
      var a := SettlementAmount(s, shares);
      SettleConserves(w, opening, s.expense.paidBy, s.splitWith, Repeat(a, |s.splitWith|), accounts);
    }
  }

  /**
   * `shared_value` never overdraws a selected user, and never overdraws the
   * payer when the settlement amount is not negative.
   */
  lemma SharedValueNonNegative(w: Wallets, s: Sharing)
    requires Settleable(w, s)
    ensures forall u :: u in s.splitWith && w[u] >= 0.0 ==> SharedValueOf(w, s).1[u] >= 0.0
    ensures Shares(s).Success? && SettlementAmount(s, Shares(s).value) >= 0.0 && w[s.expense.paidBy] >= 0.0
      ==> SharedValueOf(w, s).1[s.expense.paidBy] >= 0.0
  {
    if Shares(s).Success? {
      var shares := Shares(s).value;
      var opening := Allocate(s.expense.paidBy, s.splitWith, shares, s.splitMethod != Equal);
      var a := SettlementAmount(s, shares);
      var after := Settle(w, opening, s.expense.paidBy, s.splitWith, Repeat(a, |s.splitWith|)).0;
      assert SharedValueOf(w, s).1 == after;
      SettleNonNegative(w, opening, s.expense.paidBy, s.splitWith, Repeat(a, |s.splitWith|));
      forall u | u in s.splitWith && w[u] >= 0.0
        ensures SharedValueOf(w, s).1[u] >= 0.0
      {
        var k :| 0 <= k < |s.splitWith| && s.splitWith[k] == u;
      }
    }
  }

  /**
   * The EQUAL example: the payer holds 100 and records an expense of 40,
   * keeping 60; split equally with one user holding 50, the share is 20, and
   * settlement leaves the user with 30 and the payer with 80, both entries `Paid`.
   */
  lemma EqualExample(payer: User, b: User)
    requires payer != b
    ensures var e := Expense(payer, 40.0);
      var s := Sharing(e, Equal, [b], None);
      var w1 := map[payer := 60.0, b := 50.0];
      && RecordExpense(map[payer := 100.0, b := 50.0], e) == Success(w1)
      && Settleable(w1, s)
      && Shares(s) == Success([20.0])
      && SharedValueOf(w1, s).0.Success?
      && SharedValueOf(w1, s).0.value[(b, payer)] == Entry(20.0, Paid, HasPaid(b, Some(payer), 20.0))
      && SharedValueOf(w1, s).0.value[(payer, b)] == Entry(20.0, Paid, HasPaid(b, None, 20.0))
      && SharedValueOf(w1, s).1 == map[payer := 80.0, b := 30.0]
  {
    var e := Expense(payer, 40.0);
    var w1 := map[payer := 60.0, b := 50.0];
    assert map[payer := 100.0, b := 50.0][payer := 60.0] == w1;
    EqualSettlement(payer, b, 60.0, 50.0);
    var opening := Allocate(payer, [b], [20.0], false);
    AllocateEntry(payer, [b], [20.0], false, 0);
    SettleStep(w1, opening, payer, [b], [20.0], 0);
    assert [b][..0] == [] && [20.0][..0] == [] && [b][..1] == [b] && [20.0][..1] == [20.0];
    var (w2, led2) := SettleOne(w1, opening, payer, b, 20.0);
    assert w2 == w1[b := 30.0][payer := 80.0];
    assert w2 == map[payer := 80.0, b := 30.0];
  }

  /**
   * `shared_value` is evaluated afresh each time it is read: evaluating it
   * again on the wallets of the EQUAL example, the user pays another 20 and
   * the ledger again reads `Paid`.
   */
  lemma ReevaluationPaysAgain(payer: User, b: User)
    requires payer != b
    ensures var s := Sharing(Expense(payer, 40.0), Equal, [b], None);
      var w2 := map[payer := 80.0, b := 30.0];
      && Settleable(w2, s)
      && SharedValueOf(w2, s).0.Success?
      && SharedValueOf(w2, s).0.value[(b, payer)] == Entry(20.0, Paid, HasPaid(b, Some(payer), 20.0))
      && SharedValueOf(w2, s).1 == map[payer := 100.0, b := 10.0]
  {
    var w2 := map[payer := 80.0, b := 30.0];
    EqualSettlement(payer, b, 80.0, 30.0);
    var opening := Allocate(payer, [b], [20.0], false);
    AllocateEntry(payer, [b], [20.0], false, 0);
    SettleStep(w2, opening, payer, [b], [20.0], 0);
    assert [b][..0] == [] && [20.0][..0] == [] && [b][..1] == [b] && [20.0][..1] == [20.0];
    var (w3, led3) := SettleOne(w2, opening, payer, b, 20.0);
    assert w3 == w2[b := 10.0][payer := 100.0];
    assert w3 == map[payer := 100.0, b := 10.0];
  }

  /** The EQUAL sharing of the examples, from any two balances, down to the settlement it runs. */
  lemma EqualSettlement(payer: User, b: User, wp: real, wb: real)
    requires payer != b
    ensures var s := Sharing(Expense(payer, 40.0), Equal, [b], None);
      var w := map[payer := wp, b := wb];
      var opening := Allocate(payer, [b], [20.0], false);
      && Settleable(w, s) && Shares(s) == Success([20.0]) && Ready(w, opening, payer, [b])
      && SharedValueOf(w, s) == (Success(Settle(w, opening, payer, [b], [20.0]).1),
                                 Settle(w, opening, payer, [b], [20.0]).0)
  {
    var s := Sharing(Expense(payer, 40.0), Equal, [b], None);
    assert EqualShare(40.0, 1) == 20.0;
    assert Shares(s).value == seq(1, _ => EqualShare(40.0, 1));
    assert Shares(s).value[0] == 20.0;
    assert SettlementAmount(s, [20.0]) == 20.0;
    assert Repeat(20.0, 1) == [20.0];
  }

  // ---------------------------------------------------------------------------
  // Settling every user with the share of the last one
  // ---------------------------------------------------------------------------

  /** The EXACT sharing of the examples below: 90 split as "30,60" between two users. */
  function ExampleSharing(payer: User, b1: User, b2: User): Sharing
  {
    Sharing(Expense(payer, 90.0), Exact, [b1, b2], Some("30,60"))
  }

  /** The wallets of the examples below: the payer is empty, one user holds 40, the other 100. */
  function ExampleWallets(payer: User, b1: User, b2: User): Wallets
  {
    map[payer := 0.0, b1 := 40.0, b2 := 100.0]
  }

  /** The example sharing as written, down to the settlement it runs: both users against 60. */
  lemma ExampleSettlement(payer: User, b1: User, b2: User)
    requires payer != b1 && payer != b2 && b1 != b2
    ensures var s, w := ExampleSharing(payer, b1, b2), ExampleWallets(payer, b1, b2);
      var opening := Allocate(payer, [b1, b2], [30.0, 60.0], true);
      && Settleable(w, s) && Ready(w, opening, payer, [b1, b2])
      && SharedValueOf(w, s) == (Success(Settle(w, opening, payer, [b1, b2], [60.0, 60.0]).1),
                                 Settle(w, opening, payer, [b1, b2], [60.0, 60.0]).0)
  {
    ExactExample(payer, b1, b2, 90.0);
    assert Repeat(60.0, 2) == [60.0, 60.0];
  }

  /** The example sharing as intended, down to the settlement it runs: each user against the own share. */
  lemma IntendedExampleSettlement(payer: User, b1: User, b2: User)
    requires payer != b1 && payer != b2 && b1 != b2
    ensures var s, w := ExampleSharing(payer, b1, b2), ExampleWallets(payer, b1, b2);
      var opening := Allocate(payer, [b1, b2], [30.0, 60.0], true);
      && Settleable(w, s) && Ready(w, opening, payer, [b1, b2])
      && IntendedSharedValueOf(w, s) == (Success(Settle(w, opening, payer, [b1, b2], [30.0, 60.0]).1),
                                         Settle(w, opening, payer, [b1, b2], [30.0, 60.0]).0)
  {
    ExactExample(payer, b1, b2, 90.0);
  }

  /**
   * As written, EXACT with amount 90 and values "30,60" settles the first
   * user against 60, not against that user's own 30: holding 40, the first
   * user stays `Unpaid` although the own share was covered.
   */
  lemma StaleAmountExample(payer: User, b1: User, b2: User)
    requires payer != b1 && payer != b2 && b1 != b2
    ensures var s, w := ExampleSharing(payer, b1, b2), ExampleWallets(payer, b1, b2);
      && Settleable(w, s)
      && SharedValueOf(w, s).0.Success?
      && SharedValueOf(w, s).0.value[(b1, payer)] == Entry(30.0, Unpaid, Owes(b1, Some(payer), 30.0))
      && SharedValueOf(w, s).1 == map[payer := 60.0, b1 := 40.0, b2 := 40.0]
  {
    var opening := Allocate(payer, [b1, b2], [30.0, 60.0], true);
    ExampleSettlement(payer, b1, b2);
    AllocateEntry(payer, [b1, b2], [30.0, 60.0], true, 0);
    StaleRounds(opening, payer, b1, b2);
  }

  /** The two rounds of settlement as written on the example wallets, for any ready ledger. */
  lemma StaleRounds(led: Ledger, payer: User, b1: User, b2: User)
    requires payer != b1 && payer != b2 && b1 != b2
    requires Ready(ExampleWallets(payer, b1, b2), led, payer, [b1, b2])
    ensures var after := Settle(ExampleWallets(payer, b1, b2), led, payer, [b1, b2], [60.0, 60.0]);
      && after.0 == map[payer := 60.0, b1 := 40.0, b2 := 40.0]
      && after.1[(b1, payer)] == led[(b1, payer)]
  {
    var w := ExampleWallets(payer, b1, b2);
    SettleTwo(w, led, payer, b1, b2, 60.0, 60.0);
    assert SettleOne(w, led, payer, b1, 60.0) == (w, led);
    var (w2, led2) := SettleOne(w, led, payer, b2, 60.0);
    assert w2 == w[b2 := 40.0][payer := 60.0];
    assert w2 == map[payer := 60.0, b1 := 40.0, b2 := 40.0];
  }

  /**
   * The evidently intended `shared_value`: the same allocation and ledger,
   * but each user settled against that user's own share.
   */
  function IntendedSharedValueOf(w: Wallets, s: Sharing): (Result<Ledger, Error>, Wallets)
    requires Settleable(w, s)
  {
    match Shares(s)
    case Failure(e) => (Failure(e), w)
    case Success(shares) =>
      var payer := s.expense.paidBy;
      var users := s.splitWith;
      var opening := Allocate(payer, users, shares, s.splitMethod != Equal);
      var (after, ledger) := Settle(w, opening, payer, users, shares);
      (Success(ledger), after)
  }

  /**
   * Intended settlement: a user pays exactly the own share, when the balance
   * covers it, and both entries are then `Paid`; the payer gains the shares
   * that were paid; the total is conserved.
   */
  lemma IntendedSettlesOwnShare(w: Wallets, s: Sharing, accounts: seq<User>)
    requires Settleable(w, s) && Shares(s).Success?
    requires Distinct(accounts) && s.expense.paidBy in accounts
    requires (forall u :: u in s.splitWith ==> u in accounts) && forall y :: y in accounts ==> y in w
    ensures var (r, after) := IntendedSharedValueOf(w, s);
      var shares, payer, users := Shares(s).value, s.expense.paidBy, s.splitWith;
      && r.Success?
      && (forall k :: 0 <= k < |users| ==>
            && after[users[k]] == Debited(w[users[k]], shares[k])
            && r.value[(users[k], payer)].status == (if w[users[k]] >= shares[k] then Paid else Unpaid)
            && r.value[(payer, users[k])].status == r.value[(users[k], payer)].status)
      && after[payer] == w[payer] + PaidTotal(w, users, shares)
      && Sum(after, accounts) == Sum(w, accounts)
  {
    var shares, payer, users := Shares(s).value, s.expense.paidBy, s.splitWith;
    var opening := Allocate(payer, users, shares, s.splitMethod != Equal);
    AllocateEntries(payer, users, shares, s.splitMethod != Equal);
    var settled := Settle(w, opening, payer, users, shares);
    assert IntendedSharedValueOf(w, s) == (Success(settled.1), settled.0);
    SettleBalances(w, opening, payer, users, shares);
    SettleEntries(w, opening, payer, users, shares);
    SettleConserves(w, opening, payer, users, shares, accounts);
  }

  /** On the same example, intended settlement lets the first user pay the own 30. */
  lemma IntendedExample(payer: User, b1: User, b2: User)
    requires payer != b1 && payer != b2 && b1 != b2
    ensures var s, w := ExampleSharing(payer, b1, b2), ExampleWallets(payer, b1, b2);
      && Settleable(w, s)
      && IntendedSharedValueOf(w, s).0.Success?
      && IntendedSharedValueOf(w, s).0.value[(b1, payer)] == Entry(30.0, Paid, HasPaid(b1, Some(payer), 30.0))
      && IntendedSharedValueOf(w, s).1 == map[payer := 90.0, b1 := 10.0, b2 := 40.0]
  {
    var w := ExampleWallets(payer, b1, b2);
    var opening := Allocate(payer, [b1, b2], [30.0, 60.0], true);
    IntendedExampleSettlement(payer, b1, b2);
    AllocateEntry(payer, [b1, b2], [30.0, 60.0], true, 0);
    IntendedRounds(opening, payer, b1, b2);
  }

  /** The two rounds of intended settlement on the example wallets, for any ready ledger. */
  lemma IntendedRounds(led: Ledger, payer: User, b1: User, b2: User)
    requires payer != b1 && payer != b2 && b1 != b2
    requires Ready(ExampleWallets(payer, b1, b2), led, payer, [b1, b2])
    ensures var after := Settle(ExampleWallets(payer, b1, b2), led, payer, [b1, b2], [30.0, 60.0]);
      && after.0 == map[payer := 90.0, b1 := 10.0, b2 := 40.0]
      && after.1[(b1, payer)] == led[(b1, payer)].(status := Paid, summary := HasPaid(b1, Some(payer), 30.0))
  {
    var w := ExampleWallets(payer, b1, b2);
    SettleTwo(w, led, payer, b1, b2, 30.0, 60.0);
    var (w1, led1) := SettleOne(w, led, payer, b1, 30.0);
    assert w1 == w[b1 := 10.0][payer := 30.0];
    var (w2, led2) := SettleOne(w1, led1, payer, b2, 60.0);
    assert w2 == w1[b2 := 40.0][payer := 90.0];
    assert w2 == map[payer := 90.0, b1 := 10.0, b2 := 40.0];
  }

  // ---------------------------------------------------------------------------
  // The tables
  // ---------------------------------------------------------------------------

  /** The wallet table (one balance per user) and the expense table. */
  class Store {
    var balance: Wallets
    var expenses: seq<Expense>

    constructor (wallets: Wallets)
      ensures balance == wallets && expenses == []
    {
      balance := wallets;
      expenses := [];
    }

    /**
     * `Expense.save`: read the payer's wallet, refuse when its balance is
     * below the amount, otherwise debit it and store the expense.
     */
    method SaveExpense(e: Expense) returns (r: Result<(), Error>)
      requires e.paidBy in balance
      modifies this
      ensures r.Failure? <==> RecordExpense(old(balance), e).Failure?
      ensures r.Failure? ==> r.error == InsufficientFunds && balance == old(balance) && expenses == old(expenses)
      ensures r.Success? ==> balance == RecordExpense(old(balance), e).value && expenses == old(expenses) + [e]
    {
      var wallet := balance[e.paidBy];
      if wallet < e.amount {
        return Failure(InsufficientFunds);
      }
      balance := balance[e.paidBy := wallet - e.amount];
      expenses := expenses + [e];
      return Success(());
    }

    /**
     * `ExpenseSharing.shared_value`: compute the shares, build the mirror
     * ledger, then settle every selected user in order against the amount
     * the allocation left behind, moving money between wallets.
     */
    method SharedValue(s: Sharing) returns (r: Result<Ledger, Error>)
      requires Settleable(balance, s)
      modifies this
      ensures (r, balance) == SharedValueOf(old(balance), s)
      ensures expenses == old(expenses)
    {
      var computed := Shares(s);
      if computed.Failure? {
        return Failure(computed.error);
      }
      var payer, users, shares := s.expense.paidBy, s.splitWith, computed.value;
      var opening := AllocateLedger(payer, users, shares, s.splitMethod != Equal);
      var amount := SettlementAmount(s, shares);
      var splitValue := SettleUsers(payer, users, Repeat(amount, |users|), opening);
      r := Success(splitValue);
    }

    /** `shared_value` as evidently intended: every user settled against the own share. */
    method IntendedSharedValue(s: Sharing) returns (r: Result<Ledger, Error>)
      requires Settleable(balance, s)
      modifies this
      ensures (r, balance) == IntendedSharedValueOf(old(balance), s)
      ensures expenses == old(expenses)
    {
      var computed := Shares(s);
      if computed.Failure? {
        return Failure(computed.error);
      }
      var payer, users, shares := s.expense.paidBy, s.splitWith, computed.value;
      var opening := AllocateLedger(payer, users, shares, s.splitMethod != Equal);
      var splitValue := SettleUsers(payer, users, shares, opening);
      r := Success(splitValue);
    }

    /**
     * The settlement loop of `shared_value`: for each selected user in order,
     * read the user's wallet; when it holds at least the user's amount, move
     * that amount to the payer's wallet and mark both mirror entries paid.
     */
    method SettleUsers(payer: User, users: seq<User>, amounts: seq<real>, opening: Ledger) returns (splitValue: Ledger)
      requires Ready(balance, opening, payer, users) && |amounts| == |users|
      modifies this
      ensures (balance, splitValue) == Settle(old(balance), opening, payer, users, amounts)
      ensures expenses == old(expenses)
    {
      splitValue := opening;
      var i := 0;
      while i < |users|
        invariant 0 <= i <= |users|
        invariant (balance, splitValue) == Settle(old(balance), opening, payer, users[..i], amounts[..i])
        invariant expenses == old(expenses)
      {
        SettleStep(old(balance), opening, payer, users, amounts, i);
        splitValue := SettleUser(payer, users[i], amounts[i], splitValue);
        i := i + 1;
      }
      assert users[..i] == users && amounts[..i] == amounts;
    }

    /**
     * One round of the settlement loop: when user `u`'s wallet holds at least
     * `amount`, debit it, credit the payer's wallet and mark both mirror
     * entries paid; otherwise change nothing.
     */
    method SettleUser(payer: User, u: User, amount: real, splitValue: Ledger) returns (ledger: Ledger)
      requires payer in balance && u in balance && u != payer
      requires (u, payer) in splitValue && (payer, u) in splitValue
      modifies this
      ensures (balance, ledger) == SettleOne(old(balance), splitValue, payer, u, amount)
      ensures expenses == old(expenses)
    {
      ledger := splitValue;
      if balance[u] >= amount {
        balance := balance[u := balance[u] - amount];
        balance := balance[payer := balance[payer] + amount];
        ledger := ledger[(u, payer) := ledger[(u, payer)].(status := Paid, summary := HasPaid(u, Some(payer), amount))];
        ledger := ledger[(payer, u) := ledger[(payer, u)].(status := Paid, summary := HasPaid(u, None, amount))];
      }
    }
  }

  /**
   * The allocation loop of `shared_value`: for each selected user in order,
   * put both mirror entries, unpaid, with the user's share.
   */
  method AllocateLedger(payer: User, users: seq<User>, shares: seq<real>, mirrorNamesPayer: bool)
    returns (splitValue: Ledger)
    requires |shares| == |users|
    ensures splitValue == Allocate(payer, users, shares, mirrorNamesPayer)
  {
    splitValue := map[];
    var i := 0;
    while i < |users|
      invariant 0 <= i <= |users|
      invariant splitValue == Allocate(payer, users[..i], shares[..i], mirrorNamesPayer)
    {
      var u, share := users[i], shares[i];
      AllocateStep(payer, users, shares, mirrorNamesPayer, i);
      splitValue := splitValue[(u, payer) := Entry(share, Unpaid, Owes(u, Some(payer), share))];
      splitValue := splitValue[(payer, u) :=
        Entry(share, Unpaid, Owes(u, if mirrorNamesPayer then Some(payer) else None, share))];
      i := i + 1;
    }
    assert users[..i] == users && shares[..i] == shares;
  }
}
