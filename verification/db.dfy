/**
 The ledger of db/db.go: the Euro currency, transactions, and a named
 database holding an ordered sequence of transactions addressed by their
 zero-based position. Every operation is a pure function from the old
 database to the new one; Go's pointer receivers become a returned value.

 Read and Delete are modelled as written, with a guard that turns away
 every position that exists and lets every other position reach an
 indexing or slicing that panics. ReadInRange and DeleteInRange are the
 corrected variants, with the guard the surrounding code evidently means.
 */
module Db {
  import opened Money

  /** The Euro: pattern `%d.%02d` followed by the suffix as it appears in
      db/db.go (the UTF-8 bytes of the euro sign decoded as Windows-1252),
      100 cents to the euro. */
  const EURO := Currency("Euro", "\U{E2}\U{201A}\U{AC}", 100)

  /** Currency name, the suffix after `%d.%02d` in its format, and minor
      units per major unit. The default currency is fixed to EURO. */
  datatype Currency = Currency(name: string, suffix: string, ratio: int)

  /** `Value.String` with the default currency. */
  function ValueString(v: Value): string
  {
    Render(v, EURO.suffix, EURO.ratio)
  }

  /** `Parse` with the default currency. */
  function ParseValue(s: string): Value
  {
    Parse(s, EURO.suffix, EURO.ratio)
  }

  /** For every non-negative value, Parse reads back what String prints
      with the Euro currency. */
  lemma EuroRoundTrip(v: Value)
    requires 0 <= v
    ensures ParseValue(ValueString(v)) == v
  {
    RoundTrip(v, EURO.suffix, EURO.ratio);
  }

  /** With the Euro currency, -150 prints with a minus sign in the minor
      slot and reads back as -105. */
  lemma EuroNegativeValue()
    ensures ValueString(-150) == "-1.-50" + EURO.suffix
    ensures ParseValue(ValueString(-150)) == -105
  {
    NegativeRoundTripExample(EURO.suffix);
  }

  /** Go's `type Action string`; only WITHDRAW and DEPOSIT are named, but
      any text can be stored. */
  type Action = string

  const WITHDRAW: Action := "withdraw"
  const DEPOSIT: Action := "deposit"

  /** A point in time; nothing in the core inspects it. */
  datatype Date = Date(unixNano: int)

  datatype Transaction = Transaction(name: string, amount: Value, kind: Action, date: Date)

  datatype Database = Database(name: string, transactions: seq<Transaction>)

  /** What a positional access yields: a value, the TransactionNotFound
      error, or a Go run-time panic (index or slice bounds out of range). */
  datatype Outcome<+T> = Ok(value: T) | NotFound | Panic

  /** `NewTransaction`, with the clock reading `now` passed in. */
  function NewTransaction(name: string, action: Action, amount: Value, now: Date): Transaction
  {
    Transaction(name, amount, action, now)
  }

  /** `NewDatabase`: a named, empty ledger. */
  function NewDatabase(name: string): (r: Database)
    ensures r.name == name && Size(r) == 0
  {
    Database(name, [])
  }

  function Size(db: Database): nat
  {
    |db.transactions|
  }

  /** `Store`: append `t`; it gets the old size as its ID. */
  function Store(db: Database, t: Transaction): (r: Database)
    ensures r.name == db.name
    ensures Size(r) == Size(db) + 1
    ensures r.transactions[Size(db)] == t
    ensures forall id :: 0 <= id < Size(db) ==> r.transactions[id] == db.transactions[id]
  {
    db.(transactions := db.transactions + [t])
  }

  /** Go's `s[i]`: the element, or a panic when `i` is outside the slice. */
  function Index<T>(s: seq<T>, i: int): (r: Outcome<T>)
    ensures r.Ok? <==> 0 <= i < |s|
    ensures r.Ok? ==> r.value == s[i]
    ensures !r.NotFound?
  {
    if 0 <= i < |s| then Ok(s[i]) else Panic
  }

  /** The removal `append(s[:i], s[i+1:]...)` for a position that exists:
      one element shorter, the prefix before `i` kept, every later element
      moved down by one. */
  function RemoveAt<T>(s: seq<T>, i: int): (r: seq<T>)
    requires 0 <= i < |s|
    ensures |r| == |s| - 1
    ensures r[..i] == s[..i]
    ensures forall j :: i <= j < |r| ==> r[j] == s[j + 1]
  {
    s[..i] + s[i + 1..]
  }

  /** RemoveAt takes out exactly the element at `i`: the removed element
      and the result together hold the same elements as before. */
  lemma RemoveAtPermutation<T>(s: seq<T>, i: int)
    requires 0 <= i < |s|
    ensures multiset(RemoveAt(s, i)) + multiset{s[i]} == multiset(s)
  {
    assert s == s[..i] + [s[i]] + s[i + 1..];
  }

  /** `append(s[:i], s[i+1:]...)` for any `i`: the slice expressions panic
      unless `0 <= i` and `i + 1 <= len(s)`. */
  function SliceRemove<T>(s: seq<T>, i: int): (r: Outcome<seq<T>>)
    ensures r.Ok? <==> 0 <= i < |s|
    ensures r.Ok? ==> r.value == RemoveAt(s, i)
    ensures !r.NotFound?
  {
    if 0 <= i && i + 1 <= |s| then Ok(RemoveAt(s, i)) else Panic
  }

  /** `Database.Read` as written: the guard returns TransactionNotFound for
      every ID that exists, and every other ID is indexed and panics. */
  function Read(db: Database, id: int): (r: Outcome<Transaction>)
    ensures 0 <= id < Size(db) <==> r == NotFound
    ensures !(0 <= id < Size(db)) <==> r == Panic
  {
    if id > -1 && id < Size(db) then NotFound
    else Index(db.transactions, id)
  }

  /** `Database.Delete` as written: the guard returns TransactionNotFound
      for every ID that exists (the ledger is left as it was), and every
      other ID reaches the slicing and panics. */
  function Delete(db: Database, id: int): (r: Outcome<Database>)
    ensures 0 <= id < Size(db) <==> r == NotFound
    ensures !(0 <= id < Size(db)) <==> r == Panic
  {
    if id > -1 && id < Size(db) then NotFound
    else
      match SliceRemove(db.transactions, id)
      case Ok(rest) => Ok(db.(transactions := rest))
      case _ => Panic
  }

  /** As written, a transaction just stored cannot be read back or deleted:
      position 0 of a one-element ledger is turned away. */
  lemma StoreThenReadAsWritten(name: string, t: Transaction)
    ensures Read(Store(NewDatabase(name), t), 0) == NotFound
    ensures Delete(Store(NewDatabase(name), t), 0) == NotFound
    ensures Read(Store(NewDatabase(name), t), 1) == Panic
  {
  }

  /** Read with the evidently intended guard: the transaction at every
      position that exists, TransactionNotFound for every other position. */
  function ReadInRange(db: Database, id: int): (r: Outcome<Transaction>)
    ensures r.Ok? <==> 0 <= id < Size(db)
    ensures r.Ok? ==> r.value == db.transactions[id]
    ensures !r.Ok? ==> r == NotFound
  {
    if id < 0 || id >= Size(db) then NotFound
    else Index(db.transactions, id)
  }

  /** Delete with the evidently intended guard: removes the transaction at
      a position that exists and shifts every later one down by one;
      TransactionNotFound for every other position. */
  function DeleteInRange(db: Database, id: int): (r: Outcome<Database>)
    ensures r.Ok? <==> 0 <= id < Size(db)
    ensures !r.Ok? ==> r == NotFound
    ensures r.Ok? ==> r.value.name == db.name && Size(r.value) == Size(db) - 1
    ensures r.Ok? ==> forall j :: 0 <= j < id ==> ReadInRange(r.value, j) == ReadInRange(db, j)
    ensures r.Ok? ==> forall j :: id < j < Size(db) ==> ReadInRange(r.value, j - 1) == ReadInRange(db, j)
  {
    if id < 0 || id >= Size(db) then NotFound
    else
      var rest := RemoveAt(db.transactions, id);
      assert forall j :: 0 <= j < id ==> rest[j] == rest[..id][j];
      Ok(db.(transactions := rest))
  }

  /** With the intended guard, storing into a fresh ledger and reading ID 0
      gives the transaction back, and the ledger holds one transaction. */
  lemma StoreThenRead(name: string, t: Transaction)
    ensures Size(Store(NewDatabase(name), t)) == 1
    ensures ReadInRange(Store(NewDatabase(name), t), 0) == Ok(t)
  {
  }

  /** IDs are positions: after a delete and a store, the stored transaction
      sits at the end and the deleted one's successors have moved down. */
  lemma AmendMovesToEnd(db: Database, id: int, t: Transaction)
    requires 0 <= id < Size(db)
    ensures DeleteInRange(db, id).Ok?
    ensures var after := Store(DeleteInRange(db, id).value, t);
      Size(after) == Size(db) && ReadInRange(after, Size(db) - 1) == Ok(t)
  {
  }
}
