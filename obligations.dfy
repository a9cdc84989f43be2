/** The `cuentas_por_cobrar` and `cuentas_por_pagar` tables: two structurally identical
    books of obligations, differing only in whether the counterpart is a client or a supplier. */
module Obligations {
  import opened Wrappers
  import opened Text
  import opened Calendar
  import opened Money

  /** `estado`: the schema allows 'pendiente' (the default), 'pagada' and 'vencida'. */
  datatype Status = Pendiente | Pagada | Vencida

  /** One row of either book (the `fecha_registro` timestamp is not modelled);
      `counterpart` is `cliente` for a receivable and `proveedor` for a payable. */
  datatype Obligation = Obligation(id: nat, counterpart: string, monto: real, moneda: Currency,
                                   vencimiento: Date, estado: Status, descripcion: string)

  /** Why `add_cxc` / `add_cxp` wrote nothing. */
  datatype ObligationError =
    | InvalidAmount      // the amount did not parse as a number
    | InvalidDueDate     // the due date is not a YYYY-MM-DD calendar date
    | IncompleteFields   // the amount is not positive, or the counterpart is blank

  /** AUTOINCREMENT keys: increasing in insertion order, positive, below the next key.
      Each table states this over its own row type's `id` field, so the quantifiers
      trigger on field selections rather than on an applied key function. */
  ghost predicate ObligationKeys(rows: seq<Obligation>, next: nat) {
    && (forall i, j :: 0 <= i < j < |rows| ==> rows[i].id < rows[j].id)
    && (forall i :: 0 <= i < |rows| ==> 1 <= rows[i].id < next)
    && 1 <= next
  }

  /** What every stored row satisfies given the operations that write it. */
  predicate WellFormed(rows: seq<Obligation>) {
    forall i :: 0 <= i < |rows| ==>
      rows[i].monto > 0.0 && ValidDate(rows[i].vencimiento) && rows[i].estado != Vencida
  }

  /** The row `add_cxc` / `add_cxp` inserts under key `id`, or the check that refused it:
      the amount is parsed, then the due date, then the amount must be positive and the
      counterpart filled in; the row starts as 'pendiente'. `due` is the date read from the
      stripped text, `None` when it does not have the `YYYY-MM-DD` form. */
  function NewObligation(id: nat, counterpart: string, monto: Option<real>, moneda: Currency,
                         due: Option<Date>, descripcion: string): (r: Result<Obligation, ObligationError>)
    ensures r == Failure(InvalidAmount) <==> monto.None?
    ensures r == Failure(InvalidDueDate) <==> monto.Some? && !(due.Some? && ValidDate(due.value))
    ensures r == Failure(IncompleteFields) <==>
              monto.Some? && due.Some? && ValidDate(due.value)
              && (monto.value <= 0.0 || Strip(counterpart) == [])
    ensures r.Success? ==>
              r.value == Obligation(id, Strip(counterpart), monto.value, moneda, due.value,
                                    Pendiente, Strip(descripcion))
              && WellFormed([r.value])
  {
    if monto.None? then Failure(InvalidAmount)
    else if due.None? || !ValidDate(due.value) then Failure(InvalidDueDate)
    else if monto.value <= 0.0 || Strip(counterpart) == [] then Failure(IncompleteFields)
    else Success(Obligation(id, Strip(counterpart), monto.value, moneda, due.value,
                            Pendiente, Strip(descripcion)))
  }

  /** Appending a new row under the next key keeps the keys and the row invariants. */
  lemma AppendObligation(rows: seq<Obligation>, next: nat, o: Obligation)
    requires ObligationKeys(rows, next) && WellFormed(rows) && o.id == next && WellFormed([o])
    ensures ObligationKeys(rows + [o], next + 1) && WellFormed(rows + [o])
  {
  }

  /** `UPDATE ... SET estado = 'pagada' WHERE id = ?`: the rows with that key become paid,
      every other row and every other field stays as it was. */
  function MarkPaid(rows: seq<Obligation>, id: int): (r: seq<Obligation>)
    ensures |r| == |rows|
    ensures forall i :: 0 <= i < |rows| ==>
              r[i] == if rows[i].id == id then rows[i].(estado := Pagada) else rows[i]
  {
    if rows == [] then []
    else [if rows[0].id == id then rows[0].(estado := Pagada) else rows[0]] + MarkPaid(rows[1..], id)
  }

  /** Marking the same obligation paid twice has the effect of marking it once. */
  lemma MarkPaidIdempotent(rows: seq<Obligation>, id: int)
    ensures MarkPaid(MarkPaid(rows, id), id) == MarkPaid(rows, id)
  {
    var once := MarkPaid(rows, id);
    var twice := MarkPaid(once, id);
    assert forall i :: 0 <= i < |rows| ==> twice[i] == once[i];
  }

  /** Marking a key that no row has changes nothing. */
  lemma MarkPaidUnknown(rows: seq<Obligation>, id: int)
    requires forall i :: 0 <= i < |rows| ==> rows[i].id != id
    ensures MarkPaid(rows, id) == rows
  {
    var r := MarkPaid(rows, id);
    assert forall i :: 0 <= i < |rows| ==> r[i] == rows[i];
  }

  /** Marking paid keeps the keys, and never produces a 'vencida' row or any other invalid row. */
  lemma MarkPaidKeepsInvariants(rows: seq<Obligation>, next: nat, id: int)
    ensures ObligationKeys(rows, next) ==> ObligationKeys(MarkPaid(rows, id), next)
    ensures WellFormed(rows) ==> WellFormed(MarkPaid(rows, id))
  {
    var r := MarkPaid(rows, id);
    assert forall i :: 0 <= i < |rows| ==> r[i].id == rows[i].id && r[i].monto == rows[i].monto
                                            && r[i].vencimiento == rows[i].vencimiento;
  }

  /** With unique keys, marking the key of row k pays that row and changes no other. */
  lemma MarkPaidExisting(rows: seq<Obligation>, next: nat, k: nat)
    requires ObligationKeys(rows, next) && k < |rows|
    ensures MarkPaid(rows, rows[k].id) == rows[k := rows[k].(estado := Pagada)]
  {
    var r := MarkPaid(rows, rows[k].id);
    var expected := rows[k := rows[k].(estado := Pagada)];
    assert forall i :: 0 <= i < |rows| ==> r[i] == expected[i];
  }
}
