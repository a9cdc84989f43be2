/** The `transacciones` table: recording a movement, the net balance, and deletion by id. */
module Movements {
  import opened Wrappers
  import opened Money
  import opened Text
  import opened Credentials

  /** `tipo`: 'entrada' (income) or 'salida' (expense). */
  datatype Direction = Entrada | Salida

  /** `medio`: 'fisico' (cash) or 'digital'. */
  datatype Medium = Fisico | Digital

  /** One row of `transacciones` (the `fecha` timestamp is not modelled). The three bank
      columns are stored figures that no aggregate reads. */
  datatype Transaction = Transaction(id: nat, usuario: string, tipo: Direction, monto: real,
                                     moneda: Currency, medio: Medium, bancoVen: real,
                                     bancoMercantil: real, bancoBanesco: real, descripcion: string)

  /** Why `add_transaction` wrote nothing. */
  datatype TxError =
    | InvalidNumber       // the amount or a bank figure did not parse as a number
    | NonPositiveAmount   // the amount is not greater than zero
    | NoSession           // nobody is logged in

  predicate AllPositive(txs: seq<Transaction>) {
    forall i :: 0 <= i < |txs| ==> txs[i].monto > 0.0
  }

  /** AUTOINCREMENT keys: increasing in insertion order, positive, below the next key.
      Each table states this over its own row type's `id` field, so the quantifiers
      trigger on field selections rather than on an applied key function. */
  ghost predicate TransactionKeys(txs: seq<Transaction>, next: nat) {
    && (forall i, j :: 0 <= i < j < |txs| ==> txs[i].id < txs[j].id)
    && (forall i :: 0 <= i < |txs| ==> 1 <= txs[i].id < next)
    && 1 <= next
  }

  /** Appending a row with a positive amount under the next key keeps the table's invariants. */
  lemma AppendTransaction(txs: seq<Transaction>, next: nat, t: Transaction)
    requires TransactionKeys(txs, next) && AllPositive(txs) && t.id == next && t.monto > 0.0
    ensures TransactionKeys(txs + [t], next + 1) && AllPositive(txs + [t])
  {
  }

  /** The row `add_transaction` inserts under key `id`, or the check that refused it:
      the four numbers are parsed first, then the amount must be positive, then someone
      must be logged in; the row belongs to that user and carries the stripped description. */
  function NewTransaction(id: nat, actor: Option<User>, tipo: Direction, monto: Option<real>,
                          moneda: Currency, medio: Medium, bancoVen: Option<real>,
                          bancoMercantil: Option<real>, bancoBanesco: Option<real>,
                          descripcion: string): (r: Result<Transaction, TxError>)
    ensures r == Failure(InvalidNumber) <==>
              monto.None? || bancoVen.None? || bancoMercantil.None? || bancoBanesco.None?
    ensures r == Failure(NonPositiveAmount) <==>
              monto.Some? && bancoVen.Some? && bancoMercantil.Some? && bancoBanesco.Some?
              && monto.value <= 0.0
    ensures r == Failure(NoSession) <==>
              monto.Some? && bancoVen.Some? && bancoMercantil.Some? && bancoBanesco.Some?
              && monto.value > 0.0 && actor.None?
    ensures r.Success? ==>
              && r.value.id == id && r.value.usuario == actor.value.username
              && r.value.tipo == tipo && r.value.monto == monto.value && r.value.monto > 0.0
              && r.value.moneda == moneda && r.value.medio == medio
              && r.value.bancoVen == bancoVen.value && r.value.bancoMercantil == bancoMercantil.value
              && r.value.bancoBanesco == bancoBanesco.value && r.value.descripcion == Strip(descripcion)
  {
    if monto.None? || bancoVen.None? || bancoMercantil.None? || bancoBanesco.None? then
      Failure(InvalidNumber)
    else if monto.value <= 0.0 then Failure(NonPositiveAmount)
    else if actor.None? then Failure(NoSession)
    else Success(Transaction(id, actor.value.username, tipo, monto.value, moneda, medio,
                             bancoVen.value, bancoMercantil.value, bancoBanesco.value, Strip(descripcion)))
  }

  /** `SELECT SUM(monto) ... WHERE tipo = dir`, with the `or 0` default for no rows. */
  function Total(txs: seq<Transaction>, dir: Direction): (t: real)
    ensures AllPositive(txs) ==> t >= 0.0
    ensures (forall i :: 0 <= i < |txs| ==> txs[i].tipo != dir) ==> t == 0.0
  {
    if txs == [] then 0.0
    else (if txs[0].tipo == dir then txs[0].monto else 0.0) + Total(txs[1..], dir)
  }

  /** The net balance shown under the transaction table: income minus expenses over every
      row, whatever its currency. */
  function NetBalance(txs: seq<Transaction>): (b: real)
    ensures txs == [] ==> b == 0.0
  {
    Total(txs, Entrada) - Total(txs, Salida)
  }

  /** What a single row adds to the net balance. */
  function Signed(t: Transaction): real {
    if t.tipo == Entrada then t.monto else -t.monto
  }

  /** The totals printed in the PDF report. */
  datatype Summary = Summary(totalEntrada: real, totalSalida: real, balance: real)

  /** `generate_pdf_report`'s totals: the same two sums and the same difference as the screen. */
  function ReportTotals(txs: seq<Transaction>): (s: Summary)
    ensures s.totalEntrada == Total(txs, Entrada) && s.totalSalida == Total(txs, Salida)
    ensures s.balance == NetBalance(txs)
    ensures s.balance == s.totalEntrada - s.totalSalida
    ensures AllPositive(txs) ==> s.totalEntrada >= 0.0 && s.totalSalida >= 0.0
  {
    var entrada := Total(txs, Entrada);
    var salida := Total(txs, Salida);
    Summary(entrada, salida, entrada - salida)
  }

  /** The sums split over a concatenation of rows. */
  lemma {:induction false} TotalConcat(a: seq<Transaction>, b: seq<Transaction>, dir: Direction)
    ensures Total(a + b, dir) == Total(a, dir) + Total(b, dir)
  {
    if a == [] {
      assert a + b == b;
    } else {
      assert (a + b)[1..] == a[1..] + b;
      TotalConcat(a[1..], b, dir);
    }
  }

  /** The net balance of a concatenation is the sum of the two net balances. */
  lemma NetBalanceConcat(a: seq<Transaction>, b: seq<Transaction>)
    ensures NetBalance(a + b) == NetBalance(a) + NetBalance(b)
  {
    TotalConcat(a, b, Entrada);
    TotalConcat(a, b, Salida);
  }

  /** Appending a row moves the balance by +monto for income and by -monto for an expense. */
  lemma NetBalanceAppend(txs: seq<Transaction>, t: Transaction)
    ensures NetBalance(txs + [t]) == NetBalance(txs) + Signed(t)
  {
    NetBalanceConcat(txs, [t]);
    assert [t][1..] == [];
  }

  /** `DELETE FROM transacciones WHERE id = ?`: every row with another key, in order.
      Its meaning is stated by `RemoveIdMembers` (exactly the rows with another key remain),
      `RemoveAbsent` (an absent key changes nothing) and `RemoveExisting` (with unique keys,
      exactly the one row carrying the key goes). */
  function RemoveId(txs: seq<Transaction>, id: int): (r: seq<Transaction>)
    ensures |r| <= |txs|
  {
    if txs == [] then []
    else if txs[0].id == id then RemoveId(txs[1..], id)
    else [txs[0]] + RemoveId(txs[1..], id)
  }

  /** The rows left after a delete by key are exactly the rows with another key. */
  lemma {:induction false} RemoveIdMembers(txs: seq<Transaction>, id: int)
    ensures forall t :: t in RemoveId(txs, id) <==> t in txs && t.id != id
  {
    if txs != [] {
      RemoveIdMembers(txs[1..], id);
      assert txs == [txs[0]] + txs[1..];
    }
  }

  /** Dropping the first row keeps the keys increasing and below the next key. */
  lemma KeysTail(txs: seq<Transaction>, next: nat)
    requires TransactionKeys(txs, next) && txs != []
    ensures TransactionKeys(txs[1..], next)
  {
    var tail := txs[1..];
    assert forall i :: 0 <= i < |tail| ==> tail[i] == txs[i + 1];
  }

  /** Deleting a key that no row has changes nothing. */
  lemma {:induction false} RemoveAbsent(txs: seq<Transaction>, id: int)
    requires forall i :: 0 <= i < |txs| ==> txs[i].id != id
    ensures RemoveId(txs, id) == txs
  {
    if txs != [] {
      RemoveAbsent(txs[1..], id);
    }
  }

  /** With unique keys, deleting the key of row k removes that row and no other. */
  lemma {:induction false} RemoveExisting(txs: seq<Transaction>, next: nat, k: nat)
    requires TransactionKeys(txs, next) && k < |txs|
    ensures RemoveId(txs, txs[k].id) == txs[..k] + txs[k + 1..]
  {
    var id := txs[k].id;
    var tail := txs[1..];
    KeysTail(txs, next);
    if k == 0 {
      assert forall i :: 0 <= i < |tail| ==> tail[i].id != id by {
        assert forall i :: 0 <= i < |tail| ==> tail[i] == txs[i + 1];
      }
      RemoveAbsent(tail, id);
      assert RemoveId(txs, id) == RemoveId(tail, id);
    } else {
      assert tail[k - 1] == txs[k];
      RemoveExisting(tail, next, k - 1);
      assert RemoveId(txs, id) == [txs[0]] + RemoveId(tail, id);
      assert tail[..k - 1] + tail[k..] == txs[1..k] + txs[k + 1..];
      assert txs[..k] == [txs[0]] + txs[1..k];
    }
  }

  /** Deleting by key keeps the remaining keys increasing and below the next key. */
  lemma {:induction false} RemoveKeepsKeys(txs: seq<Transaction>, next: nat, id: int)
    requires TransactionKeys(txs, next)
    ensures TransactionKeys(RemoveId(txs, id), next)
  {
    if txs != [] {
      var tail := txs[1..];
      KeysTail(txs, next);
      RemoveKeepsKeys(tail, next, id);
      if txs[0].id != id {
        RestAboveFirst(txs, next, id);
        ConsKeys(txs[0], RemoveId(tail, id), next);
        assert RemoveId(txs, id) == [txs[0]] + RemoveId(tail, id);
      } else {
        assert RemoveId(txs, id) == RemoveId(tail, id);
      }
    }
  }

  /** Every row left in the tail after a delete has a larger key than the first row. */
  lemma RestAboveFirst(txs: seq<Transaction>, next: nat, id: int)
    requires TransactionKeys(txs, next) && txs != []
    ensures forall i :: 0 <= i < |RemoveId(txs[1..], id)| ==> txs[0].id < RemoveId(txs[1..], id)[i].id
  {
    var tail := txs[1..];
    var rest := RemoveId(tail, id);
    RemoveIdMembers(tail, id);
    forall i | 0 <= i < |rest| ensures txs[0].id < rest[i].id {
      assert rest[i] in tail;
      var j :| 0 <= j < |tail| && tail[j] == rest[i];
      assert txs[j + 1] == rest[i];
    }
  }

  /** Putting a row with a smaller, positive key in front keeps the keys increasing. */
  lemma ConsKeys(h: Transaction, rest: seq<Transaction>, next: nat)
    requires TransactionKeys(rest, next) && 1 <= h.id < next
    requires forall i :: 0 <= i < |rest| ==> h.id < rest[i].id
    ensures TransactionKeys([h] + rest, next)
  {
    var r := [h] + rest;
    assert forall i :: 1 <= i < |r| ==> r[i] == rest[i - 1];
  }

  /** A delete by the key of row k moves the balance by exactly that row's contribution. */
  lemma NetBalanceRemove(txs: seq<Transaction>, next: nat, k: nat)
    requires TransactionKeys(txs, next) && k < |txs|
    ensures NetBalance(RemoveId(txs, txs[k].id)) == NetBalance(txs) - Signed(txs[k])
  {
    RemoveExisting(txs, next, k);
    NetBalanceWithout(txs, k);
  }

  /** Leaving row k out moves the balance by exactly that row's contribution. */
  lemma NetBalanceWithout(txs: seq<Transaction>, k: nat)
    requires k < |txs|
    ensures NetBalance(txs[..k] + txs[k + 1..]) == NetBalance(txs) - Signed(txs[k])
  {
    var pre, post := txs[..k], txs[k + 1..];
    assert txs == (pre + [txs[k]]) + post;
    NetBalanceConcat(pre + [txs[k]], post);
    NetBalanceAppend(pre, txs[k]);
    NetBalanceConcat(pre, post);
  }

  /** What a delete by key does to a table whose keys are unique: it removes the one row
      carrying the key (and moves the balance by that row), or changes nothing when no row
      carries it, and the table's invariants survive either way. */
  lemma RemoveById(txs: seq<Transaction>, next: nat, id: int)
    requires TransactionKeys(txs, next) && AllPositive(txs)
    ensures TransactionKeys(RemoveId(txs, id), next) && AllPositive(RemoveId(txs, id))
    ensures forall k :: 0 <= k < |txs| && txs[k].id == id ==>
              && RemoveId(txs, id) == txs[..k] + txs[k + 1..]
              && NetBalance(RemoveId(txs, id)) == NetBalance(txs) - Signed(txs[k])
    ensures (forall k :: 0 <= k < |txs| ==> txs[k].id != id) ==> RemoveId(txs, id) == txs
  {
    var r := RemoveId(txs, id);
    forall k | 0 <= k < |txs| && txs[k].id == id
      ensures r == txs[..k] + txs[k + 1..]
      ensures NetBalance(r) == NetBalance(txs) - Signed(txs[k])
    {
      RemoveExisting(txs, next, k);
      NetBalanceRemove(txs, next, k);
    }
    if forall k :: 0 <= k < |txs| ==> txs[k].id != id {
      RemoveAbsent(txs, id);
    }
    RemoveKeepsKeys(txs, next, id);
    RemoveIdMembers(txs, id);
    forall i | 0 <= i < |r| ensures r[i].monto > 0.0 {
      assert r[i] in txs;
    }
  }
}
