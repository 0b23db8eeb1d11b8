/**
 The pure logic inside main.go, the command-line program: its inline copy
 of the money format (`CURRENCY_FORMAT` and `MAJ_MIN`), the mapping of
 the typed transaction kind, the prompt loops of the `store` command, and
 the running balance of the `list` command. main.go declares its own
 copies of Value, Transaction and Database with the same fields as
 db/db.go; its Database has only NewDatabase and Store, with the same
 bodies as there. They are the datatypes of Db here.

 Console input is a finite sequence of lines, each as `ReadString('\n')`
 returns it (trailing newline included); a loop that runs out of lines
 yields None.
 */
module Cli {
  import opened Options
  import opened Text
  import opened Money
  import opened Db

  /** The suffix of `CURRENCY_FORMAT = "%d.%02d€"`. */
  const CurrencySuffix := "\U{20AC}"

  /** `MAJ_MIN`: minor units per major unit. */
  const MajMin := 100

  /** main.go's `Value.String`. */
  function InlineString(v: Value): string
  {
    Render(v, CurrencySuffix, MajMin)
  }

  /** main.go's `Parse`. */
  function InlineParse(s: string): Value
  {
    Parse(s, CurrencySuffix, MajMin)
  }

  /** For every non-negative value, main.go's Parse reads back what its
      String prints. */
  lemma InlineRoundTrip(v: Value)
    requires 0 <= v
    ensures InlineParse(InlineString(v)) == v
  {
    RoundTrip(v, CurrencySuffix, MajMin);
  }

  /** The minor field is not scaled: "12.5€" is 12 euros and 5 cents. */
  lemma ParseExampleUnscaled()
    ensures InlineParse("12.5\U{20AC}") == 1205
  {
    assert NatDigits(12) == "12";
    assert "12.5\U{20AC}" == NatDigits(12) + "." + [Digit(5)] + CurrencySuffix;
    ParseMinorUnscaled(12, 5, CurrencySuffix, CurrencySuffix, MajMin);
  }

  /** A typed line without the euro sign still reads both fields. */
  lemma ParseExampleTyped()
    ensures InlineParse("12.50\n") == 1250
  {
    assert NatDigits(12) == "12";
    assert TwoDigits(50) == "50";
    assert "12.50\n" == Shaped(false, 12, 50, "\n");
    ScanShaped(false, 12, 50, "\n");
    ParseIgnoresSuffix("12.50\n", CurrencySuffix, "\n", MajMin);
  }

  /** A bare integer counts whole euros. */
  lemma ParseExampleMajorOnly()
    ensures InlineParse("12\n") == 1200
  {
    assert NatDigits(12) == "12";
    assert "12\n" == NatDigits(12) + "\n";
    ParseMajorOnly(12, "\n", CurrencySuffix, MajMin);
  }

  /** An empty line or a word parses to 0, which the amount prompt rejects. */
  lemma ParseExampleNoNumber()
    ensures InlineParse("") == 0
    ensures InlineParse("abc\n") == 0
  {
    ParseNoLeadingInteger("", CurrencySuffix, MajMin);
    ParseNoLeadingInteger("abc\n", CurrencySuffix, MajMin);
  }

  /** A word after a space, and a number after a newline, parse to 0: the
      scan skips the space but not the newline, and finds no integer. */
  lemma ParseExampleNoLeadingNumber()
    ensures InlineParse(" x1") == 0
    ensures InlineParse("\n12") == 0
  {
    SkipSpaceFindsInt(" x1");
    assert SkipSpace(" x1", 0) == Some(1) && !IntStartsAt(" x1", 1);
    ParseNoLeadingInteger(" x1", CurrencySuffix, MajMin);
    SkipSpaceFindsInt("\n12");
    assert SkipSpace("\n12", 0) == None;
    ParseNoLeadingInteger("\n12", CurrencySuffix, MajMin);
  }

  /** The `wd` / `dp` mapping of the `store` command: the trimmed line
      "wd" is a withdrawal, "dp" a deposit, anything else the empty action
      that makes the loop ask again. */
  function MapAction(line: string): Action
  {
    var typed := TrimSpace(line);
    if typed == "wd" then WITHDRAW
    else if typed == "dp" then DEPOSIT
    else ""
  }

  /** MapAction accepts exactly the two abbreviations, whatever white space
      surrounds them, and nothing else. */
  lemma MapActionExactly(line: string)
    ensures MapAction(line) == WITHDRAW <==> Padded(line, "wd")
    ensures MapAction(line) == DEPOSIT <==> Padded(line, "dp")
    ensures MapAction(line) == "" <==> !Padded(line, "wd") && !Padded(line, "dp")
  {
    var pre, post := TrimSpaceSplit(line);
    if Padded(line, "wd") {
      var p, q :| AllSpaces(p) && AllSpaces(q) && line == p + ("wd" + q);
      MapActionPadded(p, q);
    }
    if Padded(line, "dp") {
      var p, q :| AllSpaces(p) && AllSpaces(q) && line == p + ("dp" + q);
      MapActionPadded(p, q);
    }
  }

  /** The abbreviations are recognised with any surrounding white space,
      such as the newline ReadString keeps. */
  lemma MapActionPadded(pre: string, post: string)
    requires AllSpaces(pre) && AllSpaces(post)
    ensures MapAction(pre + ("wd" + post)) == WITHDRAW
    ensures MapAction(pre + ("dp" + post)) == DEPOSIT
  {
    TrimSpaceStrips(pre, "wd", post);
    TrimSpaceStrips(pre, "dp", post);
  }

  /** The long names, upper case and the empty line are all rejected. */
  lemma MapActionRejects()
    ensures MapAction("withdraw") == ""
    ensures MapAction("deposit\n") == ""
    ensures MapAction("WD") == ""
    ensures MapAction("") == ""
  {
    TrimSpaceKeeps("withdraw");
    TrimSpaceKeeps("WD");
    assert TrimSpace("deposit\n") == "deposit" by {
      assert "deposit\n" == "deposit" + "\n";
      TrimTrailing("deposit", "\n");
      TrimSpaceKeeps("deposit");
    }
  }

  /** The loop shape `for x == zero { x = f(readLine()) }`: the first line
      that `f` maps to something other than `zero`, with its index, or
      None when the lines run out first. */
  function Prompt<R(==)>(lines: seq<string>, f: string -> R, zero: R): (r: Option<(R, nat)>)
    ensures r.Some? ==> r.value.1 < |lines| && r.value.0 == f(lines[r.value.1]) && r.value.0 != zero
    ensures r.Some? ==> forall j :: 0 <= j < r.value.1 ==> f(lines[j]) == zero
    ensures r.None? ==> forall j :: 0 <= j < |lines| ==> f(lines[j]) == zero
    decreases |lines|
  {
    if |lines| == 0 then None
    else if f(lines[0]) != zero then Some((f(lines[0]), 0))
    else
      match Prompt(lines[1..], f, zero)
      case None => None
      case Some((v, k)) => Some((v, k + 1))
  }

  /** The action prompt: the first line that maps to a kind, which is
      always WITHDRAW or DEPOSIT. */
  function PromptAction(lines: seq<string>): (r: Option<(Action, nat)>)
    ensures r.Some? ==> r.value.1 < |lines| && (r.value.0 == WITHDRAW || r.value.0 == DEPOSIT)
    ensures r.Some? ==> r.value.0 == MapAction(lines[r.value.1])
    ensures r.Some? ==> forall j :: 0 <= j < r.value.1 ==> MapAction(lines[j]) == ""
    ensures r.None? ==> forall j :: 0 <= j < |lines| ==> MapAction(lines[j]) == ""
  {
    Prompt(lines, MapAction, "")
  }

  /** The amount prompt: the first line that parses to a non-zero amount;
      an amount that leaves the loop is never 0. */
  function PromptAmount(lines: seq<string>): (r: Option<(Value, nat)>)
    ensures r.Some? ==> r.value.1 < |lines| && r.value.0 != 0
    ensures r.Some? ==> r.value.0 == InlineParse(lines[r.value.1])
    ensures r.Some? ==> forall j :: 0 <= j < r.value.1 ==> InlineParse(lines[j]) == 0
    ensures r.None? ==> forall j :: 0 <= j < |lines| ==> InlineParse(lines[j]) == 0
  {
    Prompt(lines, InlineParse, 0)
  }

  /** The `store` command after the name prompt: read a kind and an amount,
      build the transaction stamped `now` and append it to the ledger. It
      completes exactly when both prompts do, and the stored kind and
      amount are what those prompts returned. */
  function StoreCommand(db: Database, name: string, actionLines: seq<string>, amountLines: seq<string>, now: Date): (r: Option<Database>)
    ensures r.Some? <==> PromptAction(actionLines).Some? && PromptAmount(amountLines).Some?
    ensures r.Some? ==> Size(r.value) == Size(db) + 1 && r.value.name == db.name
    ensures r.Some? ==>
      && r.value.transactions[Size(db)].kind == PromptAction(actionLines).value.0
      && r.value.transactions[Size(db)].amount == PromptAmount(amountLines).value.0
    ensures r.Some? ==> var t := r.value.transactions[Size(db)];
      && t.name == name && t.date == now && t.amount != 0
      && (t.kind == WITHDRAW || t.kind == DEPOSIT)
    ensures r.Some? ==> forall id :: 0 <= id < Size(db) ==> r.value.transactions[id] == db.transactions[id]
  {
    match PromptAction(actionLines)
    case None => None
    case Some((action, _)) =>
      match PromptAmount(amountLines)
      case None => None
      case Some((amount, _)) => Some(Store(db, NewTransaction(name, action, amount, now)))
  }

  /** Stores the transactions one after another, as repeated `store` commands do. */
  function StoreAll(db: Database, ts: seq<Transaction>): Database
    decreases |ts|
  {
    if |ts| == 0 then db else StoreAll(Store(db, ts[0]), ts[1..])
  }

  /** Starting from NewDatabase, storing a list of transactions yields a
      ledger with that name holding exactly that list, in order. */
  lemma {:induction false} StoreAllFromNew(name: string, ts: seq<Transaction>)
    ensures StoreAll(NewDatabase(name), ts) == Database(name, ts)
  {
    StoreAllAppends(NewDatabase(name), ts);
  }

  /** Storing appends at the end and leaves earlier entries and the name as
      they were. */
  lemma {:induction false} StoreAllAppends(db: Database, ts: seq<Transaction>)
    ensures StoreAll(db, ts) == Database(db.name, db.transactions + ts)
    decreases |ts|
  {
    if |ts| > 0 {
      StoreAllAppends(Store(db, ts[0]), ts[1..]);
      assert db.transactions + [ts[0]] + ts[1..] == db.transactions + ts;
    } else {
      assert db.transactions + ts == db.transactions;
    }
  }

  /** One pass of the `list` loop's switch: a withdrawal subtracts its
      amount, a deposit adds it, any other kind falls through unchanged. */
  function Step(balance: Value, t: Transaction): Value
  {
    if t.kind == WITHDRAW then Add(balance, -t.amount)
    else if t.kind == DEPOSIT then Add(balance, t.amount)
    else balance
  }

  /** The running balance after the `list` loop, processing the
      transactions in order from a balance of 0. */
  function Balance(ts: seq<Transaction>): Value
    decreases |ts|
  {
    if |ts| == 0 then 0 else Step(Balance(ts[..|ts| - 1]), ts[|ts| - 1])
  }

  /** The sum of the amounts of the deposits. */
  function Deposited(ts: seq<Transaction>): Value
    decreases |ts|
  {
    if |ts| == 0 then 0
    else (if ts[0].kind == DEPOSIT then ts[0].amount else 0) + Deposited(ts[1..])
  }

  /** The sum of the amounts of the withdrawals. */
  function Withdrawn(ts: seq<Transaction>): Value
    decreases |ts|
  {
    if |ts| == 0 then 0
    else (if ts[0].kind == WITHDRAW then ts[0].amount else 0) + Withdrawn(ts[1..])
  }

  lemma {:induction false} DepositedConcat(a: seq<Transaction>, b: seq<Transaction>)
    ensures Deposited(a + b) == Deposited(a) + Deposited(b)
    decreases |a|
  {
    if |a| > 0 {
      assert (a + b)[1..] == a[1..] + b;
      DepositedConcat(a[1..], b);
    } else {
      assert a + b == b;
    }
  }

  lemma {:induction false} WithdrawnConcat(a: seq<Transaction>, b: seq<Transaction>)
    ensures Withdrawn(a + b) == Withdrawn(a) + Withdrawn(b)
    decreases |a|
  {
    if |a| > 0 {
      assert (a + b)[1..] == a[1..] + b;
      WithdrawnConcat(a[1..], b);
    } else {
      assert a + b == b;
    }
  }

  /** The balance is the sum of the deposits minus the sum of the
      withdrawals; transactions of any other kind do not count. */
  lemma {:induction false} BalanceIsDepositsMinusWithdrawals(ts: seq<Transaction>)
    ensures Balance(ts) == Deposited(ts) - Withdrawn(ts)
    decreases |ts|
  {
    if |ts| > 0 {
      var init, last := ts[..|ts| - 1], ts[|ts| - 1];
      assert ts == init + [last];
      BalanceIsDepositsMinusWithdrawals(init);
      DepositedConcat(init, [last]);
      WithdrawnConcat(init, [last]);
      assert Deposited([last]) == (if last.kind == DEPOSIT then last.amount else 0);
      assert Withdrawn([last]) == (if last.kind == WITHDRAW then last.amount else 0);
    }
  }

  /** The balance of a concatenation is the sum of the balances, so it does
      not depend on where the list is split. */
  lemma BalanceConcat(a: seq<Transaction>, b: seq<Transaction>)
    ensures Balance(a + b) == Balance(a) + Balance(b)
  {
    BalanceIsDepositsMinusWithdrawals(a + b);
    BalanceIsDepositsMinusWithdrawals(a);
    BalanceIsDepositsMinusWithdrawals(b);
    DepositedConcat(a, b);
    WithdrawnConcat(a, b);
  }

  /** A transaction whose kind is neither WITHDRAW nor DEPOSIT leaves the
      balance as it is, wherever it stands in the list. */
  lemma BalanceIgnoresOtherKinds(a: seq<Transaction>, t: Transaction, b: seq<Transaction>)
    requires t.kind != WITHDRAW && t.kind != DEPOSIT
    ensures Balance(a + [t] + b) == Balance(a + b)
  {
    BalanceConcat(a + [t], b);
    BalanceConcat(a, [t]);
    BalanceConcat(a, b);
    assert [t][..0] == [];
  }

  /** The `list` command's loop over the ledger, accumulating the balance
      with Value.Add as it goes. */
  method ListBalance(db: Database) returns (balance: Value)
    ensures balance == Balance(db.transactions)
    ensures balance == Deposited(db.transactions) - Withdrawn(db.transactions)
  {
    var ts := db.transactions;
    balance := 0;
    var i := 0;
    while i < |ts|
      invariant 0 <= i <= |ts|
      invariant balance == Balance(ts[..i])
    {
      var t := ts[i];
      if t.kind == WITHDRAW {
        balance := Add(balance, -t.amount);
      } else if t.kind == DEPOSIT {
        balance := Add(balance, t.amount);
      }
      assert ts[..i + 1][..i] == ts[..i];
      i := i + 1;
    }
    assert ts[..i] == ts;
    BalanceIsDepositsMinusWithdrawals(ts);
  }

  /** A deposit of 500 followed by a withdrawal of 200 leaves a balance of 300. */
  lemma BalanceExample(d: Date)
    ensures Balance([Transaction("in", 500, DEPOSIT, d), Transaction("out", 200, WITHDRAW, d)]) == 300
  {
    var ts := [Transaction("in", 500, DEPOSIT, d), Transaction("out", 200, WITHDRAW, d)];
    assert DEPOSIT != WITHDRAW by {
      assert DEPOSIT[0] != WITHDRAW[0];
    }
    assert ts[..1] == [ts[0]] && ts[..1][..0] == [];
    assert Balance(ts[..1]) == Step(0, ts[0]) == 500;
    assert Balance(ts) == Step(Balance(ts[..1]), ts[1]);
  }

  /** A ledger "Home" with a salary of 2500.00 and a rent of 900.00 holds
      the rent at ID 1 and a balance of 1600.00. */
  lemma HomeScenario(d1: Date, d2: Date)
    ensures var salary := NewTransaction("Salary", DEPOSIT, 250000, d1);
      var rent := NewTransaction("Rent", WITHDRAW, 90000, d2);
      var home := Store(Store(NewDatabase("Home"), salary), rent);
      && Size(home) == 2
      && ReadInRange(home, 1) == Ok(rent)
      && Balance(home.transactions) == 160000
  {
    var salary := NewTransaction("Salary", DEPOSIT, 250000, d1);
    var rent := NewTransaction("Rent", WITHDRAW, 90000, d2);
    var home := Store(Store(NewDatabase("Home"), salary), rent);
    assert DEPOSIT != WITHDRAW by {
      assert DEPOSIT[0] != WITHDRAW[0];
    }
    var ts := home.transactions;
    assert ts == [salary, rent];
    assert ts[..1] == [salary] && ts[..1][..0] == [];
    assert Balance(ts[..1]) == Step(0, salary) == 250000;
    assert Balance(ts) == Step(Balance(ts[..1]), rent);
  }
}
