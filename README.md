# Bookkeeping ledger of `004.py`

A model of the bookkeeping store in `004.py`, a desktop accounting application, and
proofs about it. The Tkinter screens drive the store. It is a SQLite database with five tables:

- `usuarios` (users with a role, master or estandar, and a hashed password);
- `transacciones` (income and expense movements);
- `cuentas_por_cobrar` (receivables);
- `cuentas_por_pagar` (payables);
- `historial_cambios` (the change log).

The model is one object, `Store.Ledger`. Each table is a sequence field, and each
AUTOINCREMENT key is a counter beside it. Each screen action is a method that changes
those fields. The class invariant `Valid` holds the schema's constraints and what the
operations keep true:

- keys are unique and increasing;
- usernames and cédulas are unique;
- stored passwords are digests;
- amounts are positive;
- due dates are real calendar dates;
- no receivable or payable is ever 'vencida'.

Each method is specified against a pure function over the old tables. The properties the
program relies on are proved as lemmas about those functions:

- what each check refuses, and that a refusal changes nothing;
- exactly which row changes;
- how the net balance moves;
- that a freshly registered user can log in;
- that marking paid is idempotent.

Modules, in dependency order:

- `Wrappers`: `Option` and `Result`.
- `Text`: Python's `str.strip()` and `str.isspace()` whitespace.
- `Money`: the two currencies.
- `Calendar`: which `YYYY-MM-DD` dates `datetime.strptime` accepts.
- `Credentials`: users, `get_user`, `check_password`, `login`, `register_user`, and the
  check for an existing master.
- `Movements`: transactions, the `SUM` aggregates and the balance, and delete by key.
- `Obligations`: receivables and payables, their insert, and the 'pagada' update.
- `Store`: the change log, the delete decision, and the class `Ledger` with its operations.

How the program's environment is represented:

- `hash_password` (SHA-256, hex-encoded) is the constant `Ledger.hash`. The model assumes
  only that it yields 64 lower-case hex characters (`DigestShaped`).
- The logged-in user (`self.current_user`) is the parameter `actor: Option<User>`.
- The answer to the confirmation dialog is the parameter `confirmed`.
- The result of `float()` is an `Option<real>`.
- The fields that `strptime` reads are an `Option<Date>`.
- The row the user selected in a table is given by its key `id`.

Three points about this program:

- Deleting a transaction is a hard `DELETE` (004.py:535). There is no soft delete,
  restore or purge.
- The three bank amounts are plain numeric columns (004.py:75-77). They never enter the
  balance.
- The balance adds amounts in bolívares and in dollars alike (004.py:482-487).

## Model

| member | source | states |
|---|---|---|
| Text.Strip | 004.py:262 | the stripped text is empty exactly when the input is all whitespace; otherwise it neither starts nor ends with whitespace |
| Text.StripIdempotent | 004.py:380-383 | stripping an already stripped field changes nothing |
| Text.StripIsSlice | 004.py:593-594 | stripping removes only leading and trailing whitespace: the result is a contiguous slice of the input, with only whitespace around it |
| Calendar.DaysInMonth | 004.py:603 | months have 28 to 31 days; February has 29 exactly in a Gregorian leap year and 28 otherwise; January, March, May, July, August, October and December have 31, and the other four months 30 |
| Calendar.ValidDate | 004.py:601-606 | the due-date test of `add_cxc`, also at 004.py:693-698: a valid date has a year from 1 to 9999, a month from 1 to 12 and a day from 1 to 31; days 1 to 28 are valid in every month; the 29th of February is valid exactly in leap years; the 29th and 30th are valid in every month but February; the 31st is valid in January, March, May, July, August, October and December and in no other month |
| Credentials.CheckPassword | 004.py:126-127 | `check_password` accepts exactly the value `hash_password` gives for that password, so a wrong password is refused, and never matches a stored value that is not a digest, such as plaintext; `Authenticate`'s if-and-only-if contract builds on it |
| Credentials.AllFilled | 004.py:387 | the `all([...])` test holds exactly when none of the four stripped fields is all whitespace and the password is not empty |
| Credentials.FindUser | 004.py:148-150 | `get_user` returns nothing exactly when no row has the username; otherwise it returns the first row with that username |
| Credentials.Authenticate | 004.py:261-271 | a blank username (after stripping) or an empty password is refused before any lookup; a login that succeeds returns a stored row with the stripped username and the hash of the password; with unique usernames, login succeeds exactly when a row has that username and the hash of the password |
| Credentials.HasMaster | 004.py:278-279 | the start-up check is true exactly when some user has the master role |
| Credentials.Registration | 004.py:379-406 | registration checks, in order: every field filled; a password of at least 4 characters; a new username; and a new cédula, as the UNIQUE constraint at the INSERT (004.py:61-62); each refusal happens exactly when its condition holds; the row stored under the next key holds the stripped fields, the chosen role and the hash of the password; the UNIQUE constraints survive; a password that is not itself a digest is never stored as typed |
| Credentials.RegisteredUserCanLogIn | 004.py:397-402 | right after a successful registration, login with the same password succeeds and returns the new row, typing the username as at registration or as stored |
| Credentials.RegistrationKeepsMaster | 004.py:278-281 | after a user is added, a master exists exactly when one existed before or the new user is a master |
| Movements.NewTransaction | 004.py:491-512 | an amount or bank field that does not parse, an amount not above zero, or nobody logged in each yield their own refusal, exactly when they apply and in the code's order; otherwise the row carries the parsed values, the logged-in username and the stripped description |
| Movements.Total | 004.py:482-486 | the sum of one direction is zero when no row has that direction (the `or 0` default) and non-negative when every amount is positive |
| Movements.NetBalance | 004.py:482-487 | the screen's balance is zero for an empty table |
| Movements.ReportTotals | 004.py:176-181 | the PDF report prints the same two `SUM` totals as the screen (income and expenses), and its balance is the screen's balance, their difference |
| Movements.TotalConcat | 004.py:482-483 | each `SUM` splits over a concatenation of rows |
| Movements.NetBalanceConcat | 004.py:482-487 | the balance of a concatenation is the sum of the two balances |
| Movements.NetBalanceAppend | 004.py:504-511 | appending a row moves the balance by +monto for income and by -monto for an expense |
| Movements.RemoveId | 004.py:535 | `DELETE ... WHERE id = ?` never adds rows |
| Movements.RemoveIdMembers | 004.py:535 | after the delete, the table holds exactly the rows with a different key |
| Movements.RemoveAbsent | 004.py:535 | deleting a key that no row has changes nothing |
| Movements.RemoveExisting | 004.py:535 | with AUTOINCREMENT keys, deleting the key of row k removes that row and leaves every other row in order |
| Movements.RemoveKeepsKeys | 004.py:68-69 | the remaining keys stay increasing and below the next key after a delete |
| Movements.NetBalanceRemove | 004.py:535 | deleting the key of row k lowers the balance by that row's signed amount |
| Movements.NetBalanceWithout | 004.py:482-487 | leaving out row k changes the balance by exactly that row's signed amount |
| Movements.RemoveById | 004.py:535 | a delete by key keeps the table's invariants, and either removes the one row with that key or changes nothing |
| Obligations.NewObligation | 004.py:592-613 | the amount is parsed first, then the date, then the amount must be positive and the client filled in; each refusal happens exactly when its condition holds; the new row is 'pendiente' (the schema default, 004.py:89) and has the stripped fields, a positive amount and a valid date; the same function serves `add_cxp` (004.py:684-705, default at 004.py:101) |
| Obligations.MarkPaid | 004.py:627 | the update keeps the length, turns to 'pagada' exactly the rows with that key, and changes no other field or row |
| Obligations.MarkPaidIdempotent | 004.py:621-629 | marking the same obligation paid twice equals marking it once |
| Obligations.MarkPaidUnknown | 004.py:719 | marking a key that no row carries changes nothing |
| Obligations.MarkPaidKeepsInvariants | 004.py:713-721 | marking paid keeps the keys, the positive amounts and the valid due dates, and never writes 'vencida' |
| Obligations.MarkPaidExisting | 004.py:627 | with unique keys, marking the key of row k updates that one row's status and nothing else |
| Obligations.AppendObligation | 004.py:610-613 | inserting a new well-formed row under the next key keeps keys and row invariants |
| Credentials.AppendKeepsUnique | 004.py:61-62 | adding a user whose username and cédula are both new keeps both UNIQUE constraints |
| Store.DeleteDecision | 004.py:530-534 | a delete goes ahead exactly when a master is logged in and confirms; it is refused with an error exactly when the logged-in user is not a master; with nobody logged in nothing happens and no confirmation is asked |
| Store.Ledger.constructor | 004.py:55-116 | `init_db` on a new file: five empty tables whose keys start at 1, and the invariant holds |
| Store.Ledger.LogChange | 004.py:142-146 | one entry is appended under the next change-log key, carrying the given user, action, table, key and description |
| Store.Ledger.Register | 004.py:379-406 | the users table gains exactly the row `Registration` accepts, or stays unchanged; the invariant is kept; a stored user can then log in with the same password |
| Store.Ledger.AddTransaction | 004.py:491-512 | on a refusal nothing changes; otherwise exactly one row is appended and one "insert" entry for its key is logged; the balance moves by the row's signed amount |
| Store.Ledger.DeleteTransaction | 004.py:525-536 | without a confirmed master nothing changes; otherwise only the row with that key is removed, the balance drops by its signed amount, and one "delete" entry for that key is logged |
| Store.Ledger.AddReceivable | 004.py:592-613 | the receivables gain exactly the row `NewObligation` accepts, under the next key, or stay unchanged; the invariant is kept |
| Store.Ledger.AddPayable | 004.py:684-705 | the payables gain exactly the row `NewObligation` accepts, under the next key, or stay unchanged; the invariant is kept |
| Store.Ledger.MarkReceivablePaid | 004.py:621-629 | only the receivable with that key becomes 'pagada'; the invariant is kept |
| Store.Ledger.MarkPayablePaid | 004.py:713-721 | only the payable with that key becomes 'pagada'; the invariant is kept |

## Left out

- The Tkinter GUI is not modelled: screens, widgets, menus, message boxes, the Treeview
  listing, and the "nothing selected" warnings. The selected row is passed as its key.
- The register screen fixes or offers the role: master on the first-master screen,
  estandar on self-registration. The model takes the role as a parameter.
- `logout` is not modelled. It only clears the logged-in user, which is a parameter here.
- The SQLite connection and its `threading.Lock` are not modelled. Every operation runs
  to completion before the next begins.
- Backups are file-system I/O on timers and are not modelled.
- `check_update` reads a file, and the PDF layout comes from a foreign library. Neither is
  modelled. The PDF report's totals are modelled.
- The SHA-256 computation inside `hash_password` is not modelled. It is assumed only to
  return 64 lower-case hex characters.
- `float()` and `strptime` are not modelled. The model does not capture which texts they
  accept (signs, exponents, "nan", "inf", zero padding) or float precision. Amounts are
  exact reals.
- A non-finite amount is not modelled. `float()` accepts one, and `monto <= 0` does not
  reject NaN.
- Obligations.NewObligation: it keeps the validated date fields where the program stores
  the stripped date text. The two carry the same date, but a date whose digits are not
  zero-padded would be stored differently.
- The timestamps (`CURRENT_TIMESTAMP`) and the `ORDER BY` display order are not modelled.
- Whitespace follows `str.isspace()`. No other Unicode rule is modelled. Lengths count
  code points, as `len` does.
