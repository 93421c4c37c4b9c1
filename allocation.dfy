/**
 * An expense sharing and its shares: one amount per selected user, owed to
 * the payer, under the EQUAL, EXACT or PERCENT method. This is the first
 * part of `ExpenseSharing.shared_value`, before any wallet is touched.
 * Amounts are `Decimal`s in the source and exact reals here.
 */
module Allocation {
  import opened Wrappers
  import Values

  /** A user, known by username: the ledger the settlement builds is keyed by usernames. */
  type User = string

  /** The `method` field. `Unrecognised` stands for any other stored text. */
  datatype Method = Equal | Exact | Percent | Unrecognised

  /** The exceptions the core raises. */
  datatype Error =
      /** `ValueError('Insufficient funds')` when recording an expense */
    | InsufficientFunds
      /** `values` is NULL, so `values.replace` raises `AttributeError` */
    | MissingValues
      /** a piece of `values` is not a decimal number (`decimal.InvalidOperation`) */
    | InvalidDecimal(piece: string)
      /** `ValueError` when the number of values differs from the number of selected users */
    | CountMismatch
      /** `UnboundLocalError`: no method branch assigned the amount the settlement loop reads */
    | UnboundShare

  /** An expense: who paid it and how much (title, description, ids and timestamps are not modelled). */
  datatype Expense = Expense(paidBy: User, amount: real)

  /**
   * An expense sharing: the expense, the method, the selected users (the
   * `split_with` relation, in the order it yields them) and the raw `values`.
   */
  datatype Sharing = Sharing(expense: Expense, splitMethod: Method, splitWith: seq<User>, values: Option<string>)

  /** The EQUAL share: the amount cut into one portion per selected user plus one for the payer, not rounded. */
  function EqualShare(amount: real, users: nat): (share: real)
    ensures share * (users + 1) as real == amount
  {
    amount / (users + 1) as real
  }

  /** The numbers of the `values` text, or the exception reading it raises. */
  function ParsedValues(values: Option<string>): (r: Result<seq<real>, Error>)
    ensures values.None? ==> r == Failure(MissingValues)
    ensures r.Failure? && values.Some? ==> r.error.InvalidDecimal? && Values.ParseDecimal(r.error.piece).None?
    ensures r.Success? ==> values.Some? && |r.value| == Values.Occurrences(values.value, ',') + 1
  {
    match values
    case None => Failure(MissingValues)
    case Some(text) =>
      match Values.Parse(text)
      case Failure(piece) => Failure(InvalidDecimal(piece))
      case Success(xs) =>
        Values.ParseCount(text);
        Success(xs)
  }

  /** A percentage of the amount, computed as `value / 100 * amount`. */
  function Percentage(percent: real, amount: real): (r: real)
    ensures percent == 100.0 ==> r == amount
    ensures percent == 0.0 || amount == 0.0 ==> r == 0.0
    ensures 0.0 <= percent <= 100.0 && amount >= 0.0 ==> 0.0 <= r <= amount
  {
    percent / 100.0 * amount
  }

  /** Each percentage applied to the amount. */
  function Scaled(percents: seq<real>, amount: real): (r: seq<real>)
    ensures |r| == |percents|
    ensures forall i :: 0 <= i < |percents| && percents[i] == 100.0 ==> r[i] == amount
  {
    seq(|percents|, i requires 0 <= i < |percents| => Percentage(percents[i], amount))
  }

  /**
   * The share of every selected user, in order, or the exception raised
   * before any wallet is read. The values are read (and scaled) first and
   * counted afterwards, so a bad piece is reported even when the count is
   * also wrong.
   */
  function Shares(s: Sharing): (r: Result<seq<real>, Error>)
    ensures r.Success? ==> |r.value| == |s.splitWith|
  {
    var n := |s.splitWith|;
    match s.splitMethod
    case Equal => Success(seq(n, _ => EqualShare(s.expense.amount, n)))
    case Exact =>
      (match ParsedValues(s.values)
       case Failure(e) => Failure(e)
       case Success(xs) => if |xs| != n then Failure(CountMismatch) else Success(xs))
    case Percent =>
      (match ParsedValues(s.values)
       case Failure(e) => Failure(e)
       case Success(xs) =>
         var ys := Scaled(xs, s.expense.amount);
         if |ys| != n then Failure(CountMismatch) else Success(ys))
    case Unrecognised =>
      if n == 0 then Success([]) else Failure(UnboundShare)
  }

  /**
   * The amount the settlement loop compares and moves for EVERY user: the
   * value `split_amount` still holds after the allocation loop. Under EQUAL
   * that is the common share; otherwise it is the share of the last selected
   * user. With no selected user nothing is settled and the value is not used.
   */
  function SettlementAmount(s: Sharing, shares: seq<real>): (a: real)
    requires |shares| == |s.splitWith|
    ensures s.splitMethod == Equal ==> a * (|shares| + 1) as real == s.expense.amount
    ensures s.splitMethod != Equal && shares != [] ==> a == shares[|shares| - 1]
  {
    if s.splitMethod == Equal then EqualShare(s.expense.amount, |shares|)
    else if shares == [] then 0.0
    else shares[|shares| - 1]
  }

  // ---------------------------------------------------------------------------
  // Properties
  // ---------------------------------------------------------------------------

  /**
   * EQUAL never fails and gives every selected user the same unrounded share;
   * the N shares and the payer's own portion add up to the amount.
   */
  lemma EqualSharesIdentical(s: Sharing)
    requires s.splitMethod == Equal
    ensures Shares(s).Success?
    ensures forall i :: 0 <= i < |s.splitWith| ==>
      Shares(s).value[i] == s.expense.amount / (|s.splitWith| + 1) as real
    ensures |s.splitWith| as real * EqualShare(s.expense.amount, |s.splitWith|)
          + EqualShare(s.expense.amount, |s.splitWith|) == s.expense.amount
  {
  }

  /**
   * EXACT and PERCENT succeed exactly when `values` is present, every piece
   * reads as a decimal number and there is one piece per selected user; each
   * failure is reported as the source reports it.
   */
  lemma ValuesMatchUsers(s: Sharing)
    requires s.splitMethod == Exact || s.splitMethod == Percent
    ensures Shares(s).Success? <==>
      s.values.Some? && Values.Parse(s.values.value).Success?
      && |Values.Parse(s.values.value).value| == |s.splitWith|
    ensures s.values.None? ==> Shares(s) == Failure(MissingValues)
    ensures s.values.Some? && Values.Parse(s.values.value).Failure? ==>
      Shares(s) == Failure(InvalidDecimal(Values.Parse(s.values.value).error))
    ensures (s.values.Some? && Values.Parse(s.values.value).Success?
             && |Values.Parse(s.values.value).value| != |s.splitWith|) ==> Shares(s) == Failure(CountMismatch)
    ensures s.splitMethod == Exact && Shares(s).Success? ==> Shares(s).value == Values.Parse(s.values.value).value
  {
  }

  /** The count check in terms of the text: `values` needs exactly one comma fewer than there are users. */
  lemma CommaPerUser(s: Sharing)
    requires s.splitMethod == Exact || s.splitMethod == Percent
    requires s.values.Some? && Values.Parse(s.values.value).Success?
    ensures Shares(s).Success? <==> Values.Occurrences(s.values.value, ',') + 1 == |s.splitWith|
  {
    Values.ParseCount(s.values.value);
  }

  /** EXACT and PERCENT cannot split with nobody: any `values` text holds at least one piece. */
  lemma NoUsersNoSplit(s: Sharing)
    requires s.splitMethod == Exact || s.splitMethod == Percent
    requires s.splitWith == []
    ensures Shares(s).Failure?
  {
  }

  /** A PERCENT share is the EXACT share of the same value, divided by 100 and multiplied by the amount. */
  lemma PercentIsScaledExact(s: Sharing)
    requires s.splitMethod == Percent
    ensures Shares(s).Success? <==> Shares(s.(splitMethod := Exact)).Success?
    ensures Shares(s).Failure? ==> Shares(s) == Shares(s.(splitMethod := Exact))
    ensures Shares(s).Success? ==> forall i :: 0 <= i < |s.splitWith| ==>
      Shares(s).value[i] == Percentage(Shares(s.(splitMethod := Exact)).value[i], s.expense.amount)
  {
    var exact := s.(splitMethod := Exact);
    assert ParsedValues(exact.values) == ParsedValues(s.values);
    var n := |s.splitWith|;
    match ParsedValues(s.values)
    case Failure(e) =>
      assert Shares(s) == Failure(e) && Shares(exact) == Failure(e);
    case Success(xs) =>
      var ys := Scaled(xs, s.expense.amount);
      assert |ys| == |xs|;
      assert Shares(s) == (if |ys| != n then Failure(CountMismatch) else Success(ys));
      assert Shares(exact) == (if |xs| != n then Failure(CountMismatch) else Success(xs));
  }

  /** Whatever the method, every user is settled with the share of the last selected user. */
  lemma SettlementAmountIsLastShare(s: Sharing)
    requires Shares(s).Success? && s.splitWith != []
    ensures SettlementAmount(s, Shares(s).value) == Shares(s).value[|s.splitWith| - 1]
  {
  }

  /**
   * EXACT with values "30,60": shares 30 and 60, settled with 60, whatever
   * the amount; nothing checks that the values add up to it.
   */
  lemma ExactExample(payer: User, b1: User, b2: User, amount: real)
    ensures var s := Sharing(Expense(payer, amount), Exact, [b1, b2], Some("30,60"));
      Shares(s) == Success([30.0, 60.0]) && SettlementAmount(s, [30.0, 60.0]) == 60.0
  {
    ReadThirtySixty();
  }

  lemma ReadThirtySixty()
    ensures Values.Parse("30,60") == Success([30.0, 60.0])
  {
    var text := "30,60";
    Values.StripSpacesIdentity(text);
    Values.SplitJoin(["30", "60"]);
    assert Values.Join(["30", "60"]) == text;
    ReadTwoNumbers("30", 30, "60", 60);
  }

  lemma ReadTwoNumbers(a: string, x: nat, b: string, y: nat)
    requires a != [] && Values.AllDigits(a) && Values.Value(a) == x
    requires b != [] && Values.AllDigits(b) && Values.Value(b) == y
    ensures Values.ParseAll([a, b]) == Success([x as real, y as real])
  {
    Values.ParseDigits(a);
    Values.ParseDigits(b);
    assert [a, b][1..] == [b] && [b][1..] == [];
    assert Values.ParseAll([]) == Success([]);
    assert Values.ParseAll([b]) == Success([y as real]) by {
      assert [y as real] + [] == [y as real];
    }
    assert [x as real] + [y as real] == [x as real, y as real];
  }
}
