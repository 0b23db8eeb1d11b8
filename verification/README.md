# Transaction ledger: a Dafny model of its pure core

The program is a small personal ledger written in Go. It records
withdrawals and deposits as transactions in a named database and keeps them
in a JSON file. This project models the logic under that I/O. The logic
exists twice in the source, as near-duplicates. `db/db.go` is the newer
package. `main.go` is the command-line program and carries an older inline
copy.

The model has these parts.

- **Monetary value.** `Value` is an integer count of minor units (cents).
  `String` prints it with `fmt.Sprintf("%d.%02d" + suffix, v / 100, v % 100)`,
  using Go's truncating `/` and `%`. `Parse` reads it back with
  `fmt.Sscanf`, ignores the scan error and returns `maj * 100 + min % 100`.
  `Sscanf` is modelled as a small deterministic scanner that follows Go's
  `fmt` rules:
  - white space is skipped before each field, and a newline stops the scan;
  - `%d` reads an optional sign and at least one digit;
  - the `.` must match literally;
  - `%02d` reads at most two characters, and the sign counts as one of them;
  - the suffix must match literally;
  - scanning stops at the first mismatch, and fields read before that point
    keep their values.
- **Ledger.** A `Database` is a name plus an ordered sequence of
  transactions. A transaction's ID is its position in that sequence. The
  model covers `NewDatabase`, `Size`, `Store`, `Read` and `Delete`. `Read`
  and `Delete` are modelled exactly as written (see Findings). Corrected
  variants sit beside them under their own names.
- **Command logic of main.go.** This covers the `wd`/`dp` mapping and the
  prompt loops of the `store` command, and the running balance of the
  `list` command.

Modules: `GoArith` models Go's `/` and `%`. `Text` holds digits, Go's white
space, the integer token reader and `strings.TrimSpace`. `Money` holds
`Value`, String, Sscanf and Parse. `Db` models db/db.go. `Cli` models
main.go. main.go declares its own `Value`, `Transaction` and `Database`.
They have the same fields as db/db.go's. Its `Database` has only
`NewDatabase` and `Store`, with the same bodies as in db/db.go. So the model
defines these types once, in `Db` and `Money`.

## Model

| member | source | states |
|---|---|---|
| GoArith.GoMod | db/db.go:49 | Go's `%` gives a remainder with `n == d * (n / d) + m` and `|m| < |d|`. The remainder follows the sign of the dividend: it is not negative for a non-negative value, and not positive for a negative one. |
| Text.NatDigits | db/db.go:49 | `%d` of a non-negative number prints a non-empty run of decimal digits that reads back as the same number. The first digit is `0` only for the number 0, so there are no leading zeros. |
| Text.ZeroPad2Small | db/db.go:49 | `%02d` of any number in [0, 100) prints exactly its two digits, tens first. |
| Text.DigitRun | db/db.go:60 | The digit reader behind `%d` stops at the end of the longest run of digits within the field width. |
| Text.SkipSpace | db/db.go:60 | Sscanf skips white space before a field and stops at the first other character. It fails exactly when a newline comes before any such character. |
| Text.ScanInt | db/db.go:60 | A token read by `%d` ends on a digit and is followed by a non-digit or the field's end. It is negative exactly when it starts with `-`. The read fails exactly when the field is empty, or when no digit follows the optional sign. |
| Text.ScanIntValue | db/db.go:60 | The magnitude of a token read by `%d` is the number denoted by the digits between its sign and its end. |
| Text.SkipSpaceFindsInt | db/db.go:60 | Text starts with an integer (a digit, or a sign and a digit, after white space without a newline) exactly when skipping its white space succeeds and stops at such a token. |
| Text.TrimSpaceSplit | main.go:171 | Every line is what `strings.TrimSpace` returns with white space before and after it. TrimSpace removes nothing but white space at the two ends. |
| Text.TrimSpaceStrips | main.go:171 | `strings.TrimSpace` returns exactly the text between any leading and trailing white space. |
| Text.TrimLeading | main.go:171 | Leading white space never changes what `strings.TrimSpace` returns. |
| Text.TrimTrailing | main.go:171 | Trailing white space never changes what `strings.TrimSpace` returns, when the text before it does not start with white space. |
| Money.AddLaws | db/db.go:52-55 | `Add` is exact addition: 0 is its identity, and it is commutative and associative. |
| Money.RenderNonNegative | db/db.go:48-50 | For `v >= 0`, String writes the major part `v / 100`, a point, the minor part `v % 100` in [0, 100) as exactly two digits, and the suffix. |
| Money.RenderNegativeMinor | db/db.go:49 | For a negative `v` that is not a whole number of major units, String prints a minus sign in the minor slot. |
| Money.ScanLayout | db/db.go:58-61 | Sscanf on text of the form sign, digits, `.`, two digits, suffix assigns the signed major digits and the two minor digits, and matches the whole pattern. |
| Money.ScanNegativeLayout | db/db.go:58-61 | When a minus sign follows the point, the width-two `%02d` field reads only the sign and the first minor digit. |
| Money.ScanMajorOnly | db/db.go:58-61 | Digits followed by anything other than a point or a digit assign the major field alone, and the scan stops there. |
| Money.RoundTrip | db/db.go:48-62 | For every `v >= 0`, any suffix and any ratio up to 100, Parse(String(v)) == v. Sscanf assigns both fields and matches the whole pattern. |
| Money.NegativeRoundTripFails | db/db.go:49-61 | For a negative `v` with a two-digit minor part, Parse(String(v)) is the major part minus a tenth of the minor part, which differs from `v`. |
| Money.NegativeRoundTripExample | db/db.go:49-61 | -150 prints as `-1.-50` plus the suffix, and parses back as -105. |
| Money.ParseIgnoresSuffix | db/db.go:59-61 | Parse's result never depends on whether the suffix matched, because the scan error is discarded. |
| Money.ScanFindsInteger | db/db.go:59-61 | Sscanf assigns the major field exactly when the text starts with an integer. When it does not, no field is assigned. |
| Money.ParseNoLeadingInteger | db/db.go:59-61 | Text in which `%d` finds no integer parses to 0. This covers text that starts with a word, a sign without a digit, or a newline. Sscanf assigns no field, and both fields keep their initial 0. |
| Money.ParseMajorOnly | db/db.go:59-61 | Text holding only a non-negative major integer `a` parses to `a * ratio`, with one field assigned. |
| Money.ParseMinorUnscaled | db/db.go:60-61 | A single digit `d` after the point adds `d` minor units, not `10 * d`. |
| Money.RenderSignedAgrees | db/db.go:48-50 | The corrected renderer prints the same text as String for every non-negative value. |
| Money.SignedRoundTrip | db/db.go:48-62 | With the sign written once in front and the minor part unsigned, Parse recovers every value, negative ones included. |
| Db.EuroRoundTrip | db/db.go:31 | With the Euro currency (ratio 100 and the suffix as it stands in the file), Parse(String(v)) == v for every `v >= 0`. |
| Db.EuroNegativeValue | db/db.go:31 | With the Euro currency, -150 prints as `-1.-50` plus the suffix and parses back as -105. |
| Db.NewDatabase | db/db.go:88-94 | A new database has the given name and size 0. |
| Db.Store | db/db.go:101-104 | Store keeps the name, grows the size by exactly one and places `t` at the old size. Every earlier transaction stays where it was. |
| Db.Index | db/db.go:120 | Go's `s[i]` yields the element exactly when `0 <= i < len(s)`, and panics otherwise. |
| Db.RemoveAt | db/db.go:111 | `append(s[:i], s[i+1:]...)` for `0 <= i < len(s)` is one shorter and keeps `s[..i]`. Every element after `i` moves down by one. |
| Db.RemoveAtPermutation | db/db.go:111 | The removal takes out exactly the element at `i`: that element and the result together hold the original elements. |
| Db.SliceRemove | db/db.go:111 | The slice expressions succeed exactly when `0 <= i < len(s)`, and panic otherwise. On success the result is the removal `RemoveAt`, which shifts every later element down by one. |
| Db.Read | db/db.go:115-121 | As written, Read returns TransactionNotFound exactly for the IDs in [0, Size()). Every other ID panics on indexing. |
| Db.Delete | db/db.go:106-113 | As written, Delete returns TransactionNotFound exactly for the IDs in [0, Size()), leaving the ledger as it was. Every other ID panics on slicing. |
| Db.StoreThenReadAsWritten | db/db.go:101-121 | As written, a transaction just stored into a fresh ledger cannot be read or deleted at ID 0, and ID 1 panics. |
| Db.ReadInRange | db/db.go:115-121 | Corrected Read: it returns the transaction at every ID in range, and TransactionNotFound exactly for the other IDs. |
| Db.DeleteInRange | db/db.go:106-113 | Corrected Delete: it succeeds exactly for IDs in range and shrinks the ledger by one. Earlier IDs keep their transactions, and later ones move down by one. Other IDs give TransactionNotFound. |
| Db.StoreThenRead | db/db.go:89-121 | With the corrected guard, storing into a fresh ledger gives size 1, and ID 0 reads the transaction back. |
| Db.AmendMovesToEnd | db/db.go:101-113 | A delete followed by a store keeps the size, and the stored transaction ends up at the last ID. |
| Cli.InlineRoundTrip | main.go:23-25 | With main.go's inline constants `%d.%02d€` and 100, Parse(String(v)) == v for every `v >= 0`. |
| Cli.ParseExampleUnscaled | main.go:45-49 | "12.5€" parses to 1205. |
| Cli.ParseExampleTyped | main.go:45-49 | A typed line "12.50" with its newline parses to 1250. |
| Cli.ParseExampleMajorOnly | main.go:45-49 | A typed line "12" parses to 1200. |
| Cli.ParseExampleNoNumber | main.go:45-49 | An empty line and a word both parse to 0. |
| Cli.ParseExampleNoLeadingNumber | main.go:45-49 | " x1" and a newline followed by "12" both parse to 0. |
| Cli.MapActionExactly | main.go:171-178 | A raw line maps to WITHDRAW exactly when it is "wd" with only white space around it, and to DEPOSIT exactly when it is "dp" with only white space around it. Every other line maps to the empty action. |
| Cli.MapActionPadded | main.go:170-175 | "wd" and "dp" are recognised with any surrounding white space, including the newline that ReadString keeps. |
| Cli.MapActionRejects | main.go:172-178 | "withdraw", "deposit" with a newline, "WD" and "" all map to the empty action. |
| Cli.Prompt | main.go:168-186 | The loop `for x == zero { x = f(line) }` stops at the first line that `f` maps to something other than zero, and every earlier line maps to zero. If no line qualifies, every line maps to zero. |
| Cli.PromptAction | main.go:167-179 | The action prompt stops only on WITHDRAW or DEPOSIT, at the first line that maps to one of them. If it never stops, every line maps to the empty action. |
| Cli.PromptAmount | main.go:181-186 | The amount prompt yields the first non-zero parse, so an amount that leaves the loop is never 0. |
| Cli.StoreCommand | main.go:167-189 | After the name prompt, `store` completes exactly when both the action prompt and the amount prompt do. It then appends one transaction with the given name and date. Its kind is the one the first qualifying action line gives, and its amount is the first non-zero parsed amount line. Earlier transactions stay where they were. |
| Cli.StoreAllFromNew | main.go:72-81 | NewDatabase followed by repeated Store yields a ledger with that name holding exactly the stored list, in order. |
| Cli.StoreAllAppends | main.go:79-81 | Repeated Store appends at the end and leaves the name and earlier entries unchanged. |
| Cli.BalanceIsDepositsMinusWithdrawals | main.go:214-224 | The running balance equals the sum of the deposit amounts minus the sum of the withdrawal amounts. |
| Cli.BalanceConcat | main.go:214-224 | The balance of two concatenated lists is the sum of their balances. |
| Cli.BalanceIgnoresOtherKinds | main.go:218-223 | A transaction of any other kind leaves the balance unchanged, wherever it stands, because the switch has no default. |
| Cli.ListBalance | main.go:214-224 | The `list` loop, starting at 0 and applying Add per transaction, ends with the deposits minus the withdrawals. |
| Cli.BalanceExample | main.go:214-224 | A deposit of 500 and then a withdrawal of 200 give a balance of 300. |
| Cli.HomeScenario | main.go:72-81 | Ledger "Home" with a salary of 250000 and a rent of 90000 holds the rent at ID 1 and has a balance of 160000. |

## Findings

| source | as written | input that shows it | evidently intended | confidence | as-written member | corrected member |
|---|---|---|---|---|---|---|
| db/db.go:49 | The minor part is `v % Ratio` with Go's truncating `%`, which is negative for a negative value that is not a whole number of major units. String then prints a minus sign in the minor slot, and a second one in front when the major part is not zero. When that minor part has two digits, Parse reads only the sign and the first digit into the width-two field. | -150 prints as `-1.-50` plus the suffix, and parses back as -105 | The sign is written once in front, the minor part is printed as a magnitude, and Parse inverts String for every value. String is documented as printing a currency format (db/db.go:47), which has no minus after the point, and Parse (db/db.go:57) as reading such text back | high; not executed | Money.NegativeRoundTripFails | Money.SignedRoundTrip |
| db/db.go:108 | `if ID > -1 && ID < db.Size()` returns TransactionNotFound for every ID that exists. The same guard is at line 117. | Store one transaction into a new ledger, then Read or Delete ID 0: the result is TransactionNotFound. ID 1 panics. | Report not found only for IDs outside [0, Size()), and otherwise read or remove, as the comment on `TransactionNotFound` at db/db.go:19 ("maybe invalid ID?") says | high; not executed | Db.StoreThenReadAsWritten | Db.DeleteInRange |

The corrected ledger operations `Db.ReadInRange` and `Db.DeleteInRange` are
the ones the rest of the model reads through (`Db.AmendMovesToEnd`,
`Cli.HomeScenario`). `RenderSigned` and `ParseSigned` are the corrected money
pair. The amount prompt of main.go is modelled with Parse as written,
because that is the function main.go calls.

## Left out

- File persistence, which is operating-system I/O: `Open`, `Exists`,
  `Write` and the composite `Store`/`Get`/`Delete` (db/db.go:123-188), and
  `openDatabase`/`databaseExists`/`writeDatabase`/`storeTransaction`
  (main.go:83-121). Three behaviours of that code are worth knowing:
  - a file that fails to unmarshal yields an empty `Database{}` with no
    error (db/db.go:131-133);
  - the error from `WriteFile` is discarded (db/db.go:152);
  - the composite `Delete` writes only after the in-memory Delete succeeds
    (db/db.go:182-187), which as written never happens.
- JSON encoding through `encoding/json` and the struct tags. The library is
  not part of this model, so there is no round trip to state.
- `time.Now` in `NewTransaction` is a `Date` parameter. `formatTime`
  (main.go:235-237) is printing only.
- The command-line wiring, prompts and printing (main.go:123-233), apart
  from the loops and the balance modelled above. Two defects there are left
  unmodelled:
  - `name, _ :=` at main.go:163 declares a new `name`, so the name loop
    never ends. `Cli.StoreCommand` therefore takes the name as a parameter.
  - `fmt.Scanf("%s")` at main.go:137 has no target, so `status` stays "n"
    and `init` over an existing database always aborts.
- `DatabasePath` taken from `HOME`, and the mutable `DefaultCurrency`
  global. The currency is fixed to `EURO`.
- Go's 64-bit `int`. `Value` and the scanned fields are unbounded integers.
  The model has no wrap-around, and no Sscanf range error for tokens beyond
  64 bits.
- Lost updates between concurrent processes, which need a model of
  concurrency.
- Text is a sequence of Unicode scalar values. The model leaves out Go's
  UTF-8 decoding of the input bytes, including the replacement of invalid
  bytes.
- Money.Scan: it handles only suffixes without white space or `%`, which
  covers both suffixes in the source. Go's special handling of spaces and
  `%%` in a format is not modelled.
- Cli.Prompt: when the input runs out it yields None. The Go loop would
  keep reading empty strings forever.
