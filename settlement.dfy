/**
 * The ledger `shared_value` returns and the settlement that fills it: for
 * every selected user, in order, the user pays the payer when the user's
 * wallet holds enough, and both mirror entries of the pair record the result.
 * The functions here state, round by round, what the loops of
 * `ExpenseSharing.shared_value` compute; the lemmas say what that amounts to.
 */
module Settlement {
  import opened Wrappers
  import opened Allocation

  /** Wallet balances by user: the `balance` column of the wallet table. */
  type Wallets = map<User, real>

  datatype Status = Unpaid | Paid

  /**
   * The `summary` text of an entry, without its exact formatting:
   * `Owes(u, Some(p), x)` is "u owes p : x", `Owes(u, None, x)` is "u owes : x",
   * `HasPaid(u, Some(p), x)` is "u Paid p : x", `HasPaid(u, None, x)` is "u Paid : x".
   */
  datatype Summary =
    | Owes(debtor: User, creditor: Option<User>, amount: real)
    | HasPaid(debtor: User, creditor: Option<User>, amount: real)

  /** One entry of the ledger: `{'split_amount': …, 'status': …, 'summary': …}`. */
  datatype Entry = Entry(splitAmount: real, status: Status, summary: Summary)

  /**
   * The two-level dictionary `split_value`, keyed by the pair of its two keys:
   * `split_value[a][b]` is the entry at `(a, b)`. An inner dictionary is only
   * ever created just before an entry is put into it, so no row is empty and
   * the pairs say everything the nesting does.
   */
  type Ledger = map<(User, User), Entry>

  predicate Distinct(users: seq<User>)
  {
    forall i, j :: 0 <= i < j < |users| ==> users[i] != users[j]
  }

  /** The keys the allocation creates: both directions between the payer and each selected user. */
  function Pairs(payer: User, users: seq<User>): set<(User, User)>
  {
    (set u | u in users :: (u, payer)) + (set u | u in users :: (payer, u))
  }

  // ---------------------------------------------------------------------------
  // Allocation loop: the ledger before settlement
  // ---------------------------------------------------------------------------

  /**
   * The ledger after the allocation loop has handled `users`, each with its
   * share. Under EQUAL the payer's mirror summary leaves the payer's name out
   * ("u owes : x"); under EXACT and PERCENT it names the payer.
   */
  function Allocate(payer: User, users: seq<User>, shares: seq<real>, mirrorNamesPayer: bool): (led: Ledger)
    requires |shares| == |users|
    ensures led.Keys == Pairs(payer, users)
  {
    if users == [] then map[]
    else
      var k := |users| - 1;
      var u := users[k];
      var before := Allocate(payer, users[..k], shares[..k], mirrorNamesPayer);
      assert Pairs(payer, users) == Pairs(payer, users[..k]) + {(u, payer), (payer, u)} by {
        assert users == users[..k] + [u];
      }
      before[(u, payer) := Entry(shares[k], Unpaid, Owes(u, Some(payer), shares[k]))]
            [(payer, u) := Entry(shares[k], Unpaid, Owes(u, if mirrorNamesPayer then Some(payer) else None, shares[k]))]
  }

  /**
   * Before settlement every selected user has both mirror entries, each with
   * that user's own share and status `Unpaid`.
   */
  lemma AllocateEntries(payer: User, users: seq<User>, shares: seq<real>, mirrorNamesPayer: bool)
    requires |shares| == |users| && Distinct(users) && payer !in users
    ensures forall k :: 0 <= k < |users| ==>
      && Allocate(payer, users, shares, mirrorNamesPayer)[(users[k], payer)]
         == Entry(shares[k], Unpaid, Owes(users[k], Some(payer), shares[k]))
      && Allocate(payer, users, shares, mirrorNamesPayer)[(payer, users[k])]
         == Entry(shares[k], Unpaid, Owes(users[k], if mirrorNamesPayer then Some(payer) else None, shares[k]))
  {
    forall k | 0 <= k < |users|
      ensures Allocate(payer, users, shares, mirrorNamesPayer)[(users[k], payer)]
              == Entry(shares[k], Unpaid, Owes(users[k], Some(payer), shares[k]))
      ensures Allocate(payer, users, shares, mirrorNamesPayer)[(payer, users[k])]
              == Entry(shares[k], Unpaid, Owes(users[k], if mirrorNamesPayer then Some(payer) else None, shares[k]))
    {
      AllocateEntry(payer, users, shares, mirrorNamesPayer, k);
    }
  }

  lemma {:induction false} AllocateEntry(payer: User, users: seq<User>, shares: seq<real>, mirrorNamesPayer: bool, k: nat)
    requires |shares| == |users| && Distinct(users) && payer !in users && k < |users|
    ensures Allocate(payer, users, shares, mirrorNamesPayer)[(users[k], payer)]
            == Entry(shares[k], Unpaid, Owes(users[k], Some(payer), shares[k]))
    ensures Allocate(payer, users, shares, mirrorNamesPayer)[(payer, users[k])]
            == Entry(shares[k], Unpaid, Owes(users[k], if mirrorNamesPayer then Some(payer) else None, shares[k]))
  {
    var n := |users| - 1;
    var u, v := users[k], users[n];
    var before := Allocate(payer, users[..n], shares[..n], mirrorNamesPayer);
    var after := Allocate(payer, users, shares, mirrorNamesPayer);
    assert after == before[(v, payer) := Entry(shares[n], Unpaid, Owes(v, Some(payer), shares[n]))]
      [(payer, v) := Entry(shares[n], Unpaid, Owes(v, if mirrorNamesPayer then Some(payer) else None, shares[n]))];
    if k < n {
      assert u != v && u != payer;
      assert after[(u, payer)] == before[(u, payer)] && after[(payer, u)] == before[(payer, u)];
      assert users[..n][k] == u && shares[..n][k] == shares[k];
      assert payer !in users[..n] by {
        assert forall x :: x in users[..n] ==> x in users;
      }
      AllocateEntry(payer, users[..n], shares[..n], mirrorNamesPayer, k);
    }
  }

  /** One more round of the allocation loop adds the two mirror entries of the next user. */
  lemma AllocateStep(payer: User, users: seq<User>, shares: seq<real>, mirrorNamesPayer: bool, i: nat)
    requires |shares| == |users| && i < |users|
    ensures Allocate(payer, users[..i + 1], shares[..i + 1], mirrorNamesPayer)
      == Allocate(payer, users[..i], shares[..i], mirrorNamesPayer)
           [(users[i], payer) := Entry(shares[i], Unpaid, Owes(users[i], Some(payer), shares[i]))]
           [(payer, users[i]) := Entry(shares[i], Unpaid, Owes(users[i], if mirrorNamesPayer then Some(payer) else None, shares[i]))]
  {
    assert users[..i + 1][..i] == users[..i] && shares[..i + 1][..i] == shares[..i];
  }

  // ---------------------------------------------------------------------------
  // Settlement loop
  // ---------------------------------------------------------------------------

  /** What settlement needs: every wallet it reads exists and every pair it marks was allocated. */
  predicate Ready(w: Wallets, led: Ledger, payer: User, users: seq<User>)
  {
    && payer in w
    && payer !in users
    && forall u :: u in users ==> u in w && (u, payer) in led && (payer, u) in led
  }

  /**
   * One round of the settlement loop for user `u`: when `u`'s balance is at
   * least `amount`, `u` is debited, the payer credited, and both mirror
   * entries become `Paid` with a "Paid" summary; otherwise nothing changes.
   */
  function SettleOne(w: Wallets, led: Ledger, payer: User, u: User, amount: real): (r: (Wallets, Ledger))
    requires payer in w && u in w && u != payer
    requires (u, payer) in led && (payer, u) in led
    ensures r.0.Keys == w.Keys && r.1.Keys == led.Keys
    ensures r.0[u] == Debited(w[u], amount)
    ensures r.0[payer] == w[payer] + (if w[u] >= amount then amount else 0.0)
    ensures r.0[u] + r.0[payer] == w[u] + w[payer]
    ensures forall x :: x in w && x != u && x != payer ==> r.0[x] == w[x]
    ensures r.1[(u, payer)] == Marked(led[(u, payer)], w[u] >= amount, u, Some(payer), amount)
    ensures r.1[(payer, u)] == Marked(led[(payer, u)], w[u] >= amount, u, None, amount)
    ensures forall key :: key in led && key != (u, payer) && key != (payer, u) ==> r.1[key] == led[key]
  {
    if w[u] >= amount then
      (w[u := w[u] - amount][payer := w[payer] + amount],
       led[(u, payer) := led[(u, payer)].(status := Paid, summary := HasPaid(u, Some(payer), amount))]
          [(payer, u) := led[(payer, u)].(status := Paid, summary := HasPaid(u, None, amount))])
    else
      (w, led)
  }

  /** The wallets and ledger after the settlement loop has handled `users`, `amounts[k]` for `users[k]`. */
  function Settle(w: Wallets, led: Ledger, payer: User, users: seq<User>, amounts: seq<real>): (r: (Wallets, Ledger))
    requires Ready(w, led, payer, users) && |amounts| == |users|
    ensures r.0.Keys == w.Keys && r.1.Keys == led.Keys
  {
    if users == [] then (w, led)
    else
      var k := |users| - 1;
      assert forall u :: u in users[..k] ==> u in users;
      var (w1, led1) := Settle(w, led, payer, users[..k], amounts[..k]);
      SettleOne(w1, led1, payer, users[k], amounts[k])
  }

  /** One more round of the settlement loop extends the prefix of users it has handled. */
  lemma SettleStep(w: Wallets, led: Ledger, payer: User, users: seq<User>, amounts: seq<real>, i: nat)
    requires Ready(w, led, payer, users) && |amounts| == |users| && i < |users|
    ensures Ready(w, led, payer, users[..i]) && Ready(w, led, payer, users[..i + 1])
    ensures var (w1, led1) := Settle(w, led, payer, users[..i], amounts[..i]);
      && users[i] in w1 && users[i] != payer && (users[i], payer) in led1 && (payer, users[i]) in led1
      && Settle(w, led, payer, users[..i + 1], amounts[..i + 1]) == SettleOne(w1, led1, payer, users[i], amounts[i])
  {
    assert forall v :: v in users[..i + 1] ==> v in users;
    assert users[..i + 1][..i] == users[..i] && amounts[..i + 1][..i] == amounts[..i];
  }

  /** The sum of the amounts moved: `amounts[k]` for each user whose balance covered it. */
  function PaidTotal(w: Wallets, users: seq<User>, amounts: seq<real>): real
    requires forall u :: u in users ==> u in w
    requires |amounts| == |users|
  {
    if users == [] then 0.0
    else
      var k := |users| - 1;
      assert forall u :: u in users[..k] ==> u in users;
      PaidTotal(w, users[..k], amounts[..k]) + (if w[users[k]] >= amounts[k] then amounts[k] else 0.0)
  }

  /** A balance after its owner's round: debited by the amount when it covers it, else unchanged. */
  function Debited(balance: real, amount: real): real
  {
    if balance >= amount then balance - amount else balance
  }

  /** An entry after its user's round: marked paid with a "Paid" summary when the user paid. */
  function Marked(e: Entry, paid: bool, debtor: User, creditor: Option<User>, amount: real): Entry
  {
    if paid then e.(status := Paid, summary := HasPaid(debtor, creditor, amount)) else e
  }

  // ---------------------------------------------------------------------------
  // Properties of the settlement
  // ---------------------------------------------------------------------------

  /**
   * The balances after settlement, in closed form: each selected user's
   * outcome depends only on that user's own starting balance and amount; the
   * payer gains exactly what was paid; no other wallet changes.
   */
  lemma SettleBalances(w: Wallets, led: Ledger, payer: User, users: seq<User>, amounts: seq<real>)
    requires Ready(w, led, payer, users) && |amounts| == |users| && Distinct(users)
    ensures forall k :: 0 <= k < |users| ==>
      Settle(w, led, payer, users, amounts).0[users[k]] == Debited(w[users[k]], amounts[k])
    ensures Settle(w, led, payer, users, amounts).0[payer] == w[payer] + PaidTotal(w, users, amounts)
    ensures forall x :: x in w && x != payer && x !in users ==> Settle(w, led, payer, users, amounts).0[x] == w[x]
  {
    forall k | 0 <= k < |users|
      ensures Settle(w, led, payer, users, amounts).0[users[k]] == Debited(w[users[k]], amounts[k])
    {
      SettleBalance(w, led, payer, users, amounts, k);
    }
    SettlePayer(w, led, payer, users, amounts);
  }

  /** Dropping the last of distinct users leaves distinct users, none of them the dropped one. */
  lemma DistinctPrefix(users: seq<User>)
    requires Distinct(users) && users != []
    ensures var n := |users| - 1;
      && Distinct(users[..n])
      && users[n] !in users[..n]
      && forall v :: v in users[..n] ==> v in users
  {
    var n := |users| - 1;
    assert forall v :: v in users[..n] ==> v in users;
    assert users[n] !in users[..n] by {
      forall j | 0 <= j < n ensures users[j] != users[n] { }
    }
  }

  /** The payer gains exactly what was paid; wallets outside the sharing do not change. */
  lemma {:induction false} SettlePayer(w: Wallets, led: Ledger, payer: User, users: seq<User>, amounts: seq<real>)
    requires Ready(w, led, payer, users) && |amounts| == |users| && Distinct(users)
    ensures Settle(w, led, payer, users, amounts).0[payer] == w[payer] + PaidTotal(w, users, amounts)
    ensures forall x :: x in w && x != payer && x !in users ==> Settle(w, led, payer, users, amounts).0[x] == w[x]
  {
    if users != [] {
      var n := |users| - 1;
      var u, a := users[n], amounts[n];
      var prefix := users[..n];
      DistinctPrefix(users);
      SettlePayer(w, led, payer, prefix, amounts[..n]);
      var (w1, led1) := Settle(w, led, payer, prefix, amounts[..n]);
      assert w1[u] == w[u];
      assert Settle(w, led, payer, users, amounts) == SettleOne(w1, led1, payer, u, a);
      assert PaidTotal(w, users, amounts)
        == PaidTotal(w, prefix, amounts[..n]) + (if w[u] >= a then a else 0.0);
    }
  }

  /** A selected user's balance after settlement depends only on that user's own starting balance and amount. */
  lemma {:induction false} SettleBalance(w: Wallets, led: Ledger, payer: User, users: seq<User>, amounts: seq<real>, k: nat)
    requires Ready(w, led, payer, users) && |amounts| == |users| && Distinct(users) && k < |users|
    ensures Settle(w, led, payer, users, amounts).0[users[k]] == Debited(w[users[k]], amounts[k])
  {
    var n := |users| - 1;
    var u, a := users[n], amounts[n];
    var prefix := users[..n];
    DistinctPrefix(users);
    var (w1, led1) := Settle(w, led, payer, prefix, amounts[..n]);
    var w2 := SettleOne(w1, led1, payer, u, a).0;
    assert Settle(w, led, payer, users, amounts).0 == w2;
    if k < n {
      assert users[k] == prefix[k] && amounts[k] == amounts[..n][k];
      assert users[k] != u;
      SettleBalance(w, led, payer, prefix, amounts[..n], k);
    } else {
      SettlePayer(w, led, payer, prefix, amounts[..n]);
    }
  }

  /**
   * The ledger after settlement: both mirror entries of a selected user are
   * marked `Paid` exactly when that user's starting balance covered the
   * amount, keeping their `split_amount`; every other entry is unchanged.
   */
  lemma SettleEntries(w: Wallets, led: Ledger, payer: User, users: seq<User>, amounts: seq<real>)
    requires Ready(w, led, payer, users) && |amounts| == |users| && Distinct(users)
    ensures forall k :: 0 <= k < |users| ==>
      && Settle(w, led, payer, users, amounts).1[(users[k], payer)]
         == Marked(led[(users[k], payer)], w[users[k]] >= amounts[k], users[k], Some(payer), amounts[k])
      && Settle(w, led, payer, users, amounts).1[(payer, users[k])]
         == Marked(led[(payer, users[k])], w[users[k]] >= amounts[k], users[k], None, amounts[k])
    ensures forall key :: key in led && key !in Pairs(payer, users) ==>
      Settle(w, led, payer, users, amounts).1[key] == led[key]
  {
    forall k | 0 <= k < |users|
      ensures Settle(w, led, payer, users, amounts).1[(users[k], payer)]
              == Marked(led[(users[k], payer)], w[users[k]] >= amounts[k], users[k], Some(payer), amounts[k])
      ensures Settle(w, led, payer, users, amounts).1[(payer, users[k])]
              == Marked(led[(payer, users[k])], w[users[k]] >= amounts[k], users[k], None, amounts[k])
    {
      SettleEntry(w, led, payer, users, amounts, k);
    }
    SettleOthers(w, led, payer, users, amounts);
  }

  lemma {:induction false} SettleEntry(w: Wallets, led: Ledger, payer: User, users: seq<User>, amounts: seq<real>, k: nat)
    requires Ready(w, led, payer, users) && |amounts| == |users| && Distinct(users) && k < |users|
    ensures Settle(w, led, payer, users, amounts).1[(users[k], payer)]
            == Marked(led[(users[k], payer)], w[users[k]] >= amounts[k], users[k], Some(payer), amounts[k])
    ensures Settle(w, led, payer, users, amounts).1[(payer, users[k])]
            == Marked(led[(payer, users[k])], w[users[k]] >= amounts[k], users[k], None, amounts[k])
  {
    var n := |users| - 1;
    var u, a := users[n], amounts[n];
    DistinctPrefix(users);
    if k < n {
      assert users[..n][k] == users[k] && amounts[..n][k] == amounts[k];
      assert users[k] != u;
      SettleEntry(w, led, payer, users[..n], amounts[..n], k);
      var (w1, led1) := Settle(w, led, payer, users[..n], amounts[..n]);
      assert Settle(w, led, payer, users, amounts).1 == SettleOne(w1, led1, payer, u, a).1;
    } else {
      SettleLastEntry(w, led, payer, users, amounts);
    }
  }

  lemma SettleLastEntry(w: Wallets, led: Ledger, payer: User, users: seq<User>, amounts: seq<real>)
    requires Ready(w, led, payer, users) && |amounts| == |users| && Distinct(users) && users != []
    ensures var n := |users| - 1;
      && Settle(w, led, payer, users, amounts).1[(users[n], payer)]
         == Marked(led[(users[n], payer)], w[users[n]] >= amounts[n], users[n], Some(payer), amounts[n])
      && Settle(w, led, payer, users, amounts).1[(payer, users[n])]
         == Marked(led[(payer, users[n])], w[users[n]] >= amounts[n], users[n], None, amounts[n])
  {
    var n := |users| - 1;
    var u, a := users[n], amounts[n];
    var prefix := users[..n];
    assert forall v :: v in prefix ==> v in users;
    assert u !in prefix by {
      forall j | 0 <= j < n ensures users[j] != u { }
    }
    var (w1, led1) := Settle(w, led, payer, prefix, amounts[..n]);
    SettleBalances(w, led, payer, prefix, amounts[..n]);
    assert w1[u] == w[u];
    SettleOthers(w, led, payer, prefix, amounts[..n]);
    assert (u, payer) !in Pairs(payer, prefix) && (payer, u) !in Pairs(payer, prefix);
    assert led1[(u, payer)] == led[(u, payer)] && led1[(payer, u)] == led[(payer, u)];
    assert Settle(w, led, payer, users, amounts) == SettleOne(w1, led1, payer, u, a);
  }

  lemma {:induction false} SettleOthers(w: Wallets, led: Ledger, payer: User, users: seq<User>, amounts: seq<real>)
    requires Ready(w, led, payer, users) && |amounts| == |users|
    ensures forall key :: key in led && key !in Pairs(payer, users) ==>
      Settle(w, led, payer, users, amounts).1[key] == led[key]
  {
    if users != [] {
      var n := |users| - 1;
      var u := users[n];
      assert forall v :: v in users[..n] ==> v in users;
      SettleOthers(w, led, payer, users[..n], amounts[..n]);
      assert Pairs(payer, users) == Pairs(payer, users[..n]) + {(u, payer), (payer, u)} by {
        assert users == users[..n] + [u];
      }
    }
  }

  /**
   * Per-pair independence: a selected user's outcome does not depend on any
   * other user's balance. Settling from wallets that differ only in another
   * selected user's balance leaves this user with the same balance and the
   * same entries.
   */
  lemma ShortfallIsolated(w: Wallets, w2: Wallets, led: Ledger, payer: User, users: seq<User>, amounts: seq<real>, i: nat, j: nat)
    requires Ready(w, led, payer, users) && |amounts| == |users| && Distinct(users)
    requires i < |users| && j < |users| && i != j
    requires w2.Keys == w.Keys && forall x :: x in w && x != users[i] ==> w2[x] == w[x]
    ensures Settle(w, led, payer, users, amounts).0[users[j]] == Settle(w2, led, payer, users, amounts).0[users[j]]
    ensures Settle(w, led, payer, users, amounts).1[(users[j], payer)] == Settle(w2, led, payer, users, amounts).1[(users[j], payer)]
    ensures Settle(w, led, payer, users, amounts).1[(payer, users[j])] == Settle(w2, led, payer, users, amounts).1[(payer, users[j])]
  {
    SettleBalances(w, led, payer, users, amounts);
    SettleBalances(w2, led, payer, users, amounts);
    SettleEntries(w, led, payer, users, amounts);
    SettleEntries(w2, led, payer, users, amounts);
  }

  /** Sum of the balances of `accounts`. */
  function Sum(w: Wallets, accounts: seq<User>): real
    requires forall x :: x in accounts ==> x in w
  {
    if accounts == [] then 0.0 else w[accounts[0]] + Sum(w, accounts[1..])
  }

  /** Changing one balance by `d` changes the sum of distinct accounts holding it by `d`. */
  lemma {:induction false} SumUpdate(w: Wallets, accounts: seq<User>, x: User, d: real)
    requires x in w && (forall y :: y in accounts ==> y in w) && Distinct(accounts)
    ensures Sum(w[x := w[x] + d], accounts) == Sum(w, accounts) + (if x in accounts then d else 0.0)
  {
    if accounts != [] {
      assert forall y :: y in accounts[1..] ==> y in accounts;
      assert x == accounts[0] ==> x !in accounts[1..];
      SumUpdate(w, accounts[1..], x, d);
    }
  }

  /**
   * Settlement moves money and creates none: over any list of distinct
   * accounts that holds the payer and every selected user, the total balance
   * is the same after settlement as before.
   */
  lemma {:induction false} SettleConserves(w: Wallets, led: Ledger, payer: User, users: seq<User>, amounts: seq<real>, accounts: seq<User>)
    requires Ready(w, led, payer, users) && |amounts| == |users|
    requires Distinct(accounts) && payer in accounts && (forall u :: u in users ==> u in accounts)
    requires forall y :: y in accounts ==> y in w
    ensures Sum(Settle(w, led, payer, users, amounts).0, accounts) == Sum(w, accounts)
  {
    if users != [] {
      var n := |users| - 1;
      var u := users[n];
      assert forall v :: v in users[..n] ==> v in users;
      SettleConserves(w, led, payer, users[..n], amounts[..n], accounts);
      var (w1, led1) := Settle(w, led, payer, users[..n], amounts[..n]);
      SettleOneConserves(w1, led1, payer, u, amounts[n], accounts);
    }
  }

  /** One user's settlement leaves the total over `accounts` unchanged. */
  lemma SettleOneConserves(w: Wallets, led: Ledger, payer: User, u: User, a: real, accounts: seq<User>)
    requires payer in w && u in w && u != payer
    requires (u, payer) in led && (payer, u) in led
    requires Distinct(accounts) && payer in accounts && u in accounts
    requires forall y :: y in accounts ==> y in w
    ensures Sum(SettleOne(w, led, payer, u, a).0, accounts) == Sum(w, accounts)
  {
    if w[u] >= a {
      var debited := w[u := w[u] + -a];
      SumUpdate(w, accounts, u, -a);
      SumUpdate(debited, accounts, payer, a);
      assert SettleOne(w, led, payer, u, a).0 == debited[payer := debited[payer] + a];
    }
  }

  lemma {:induction false} PaidTotalNonNegative(w: Wallets, users: seq<User>, amounts: seq<real>)
    requires (forall u :: u in users ==> u in w) && |amounts| == |users|
    requires forall k :: 0 <= k < |amounts| ==> amounts[k] >= 0.0
    ensures PaidTotal(w, users, amounts) >= 0.0
  {
    if users != [] {
      var n := |users| - 1;
      assert forall v :: v in users[..n] ==> v in users;
      PaidTotalNonNegative(w, users[..n], amounts[..n]);
    }
  }

  /**
   * Settlement never overdraws a selected user: a user who started with a
   * non-negative balance ends with one. The payer only gains, and so stays
   * non-negative, when no amount is negative; nothing checks the sign.
   */
  lemma SettleNonNegative(w: Wallets, led: Ledger, payer: User, users: seq<User>, amounts: seq<real>)
    requires Ready(w, led, payer, users) && |amounts| == |users| && Distinct(users)
    ensures forall k :: 0 <= k < |users| && w[users[k]] >= 0.0 ==>
      Settle(w, led, payer, users, amounts).0[users[k]] >= 0.0
    ensures (forall k :: 0 <= k < |amounts| ==> amounts[k] >= 0.0) ==>
      Settle(w, led, payer, users, amounts).0[payer] >= w[payer]
  {
    SettleBalances(w, led, payer, users, amounts);
    if forall k :: 0 <= k < |amounts| ==> amounts[k] >= 0.0 {
      PaidTotalNonNegative(w, users, amounts);
    }
  }

  /** Settling two users is settling the first, then the second. */
  lemma SettleTwo(w: Wallets, led: Ledger, payer: User, b1: User, b2: User, a1: real, a2: real)
    requires Ready(w, led, payer, [b1, b2])
    ensures var (w1, led1) := SettleOne(w, led, payer, b1, a1);
      && b2 in w1 && payer in w1 && (b2, payer) in led1 && (payer, b2) in led1
      && Settle(w, led, payer, [b1, b2], [a1, a2]) == SettleOne(w1, led1, payer, b2, a2)
  {
    SettleStep(w, led, payer, [b1, b2], [a1, a2], 0);
    SettleStep(w, led, payer, [b1, b2], [a1, a2], 1);
    assert [b1, b2][..1] == [b1] && [a1, a2][..1] == [a1];
    assert [b1, b2][..2] == [b1, b2] && [a1, a2][..2] == [a1, a2];
    assert [b1, b2][..0] == [] && [a1, a2][..0] == [];
  }

  /** With a negative amount the payer pays instead of being paid, and can be driven below zero. */
  lemma NegativeAmountOverdrawsPayer(payer: User, u: User)
    requires payer != u
    ensures var w := map[payer := 0.0, u := 5.0];
      var led := map[(u, payer) := Entry(-10.0, Unpaid, Owes(u, Some(payer), -10.0)),
                     (payer, u) := Entry(-10.0, Unpaid, Owes(u, Some(payer), -10.0))];
      Settle(w, led, payer, [u], [-10.0]).0 == map[payer := -10.0, u := 15.0]
  {
    var w := map[payer := 0.0, u := 5.0];
    var led := map[(u, payer) := Entry(-10.0, Unpaid, Owes(u, Some(payer), -10.0)),
                   (payer, u) := Entry(-10.0, Unpaid, Owes(u, Some(payer), -10.0))];
    assert [u][..0] == [];
    assert Settle(w, led, payer, [], []).0 == w;
    assert w[u := 15.0][payer := -10.0] == map[payer := -10.0, u := 15.0];
  }
}
