/** The application's database: five tables, each with its AUTOINCREMENT counter, and the
    operations the screens run against them. Every operation runs to completion before the
    next starts, as under the connection's lock. */
module Store {
  import opened Wrappers
  import opened Money
  import opened Text
  import opened Calendar
  import opened Credentials
  import opened Movements
  import opened Obligations

  /** `accion` values written to `historial_cambios`. */
  datatype Action = Insert | Delete

  /** One row of `historial_cambios` (the `fecha` timestamp is not modelled). */
  datatype ChangeEntry = ChangeEntry(id: nat, usuario: string, accion: Action, tabla: string,
                                     registroId: int, descripcion: string)

  /** AUTOINCREMENT keys of the change log.
      Each table states this over its own row type's `id` field, so the quantifiers
      trigger on field selections rather than on an applied key function. */
  ghost predicate ChangeKeys(log: seq<ChangeEntry>, next: nat) {
    && (forall i, j :: 0 <= i < j < |log| ==> log[i].id < log[j].id)
    && (forall i :: 0 <= i < |log| ==> 1 <= log[i].id < next)
    && 1 <= next
  }

  /** Appending an entry under the next key keeps the keys increasing. */
  lemma AppendChange(log: seq<ChangeEntry>, next: nat, e: ChangeEntry)
    requires ChangeKeys(log, next) && e.id == next
    ensures ChangeKeys(log + [e], next + 1)
  {
  }

  /** Appending a row whose password is a digest keeps every stored password a digest. */
  lemma AppendDigest(users: seq<User>, u: User)
    requires forall i :: 0 <= i < |users| ==> IsHexDigest(users[i].password)
    requires IsHexDigest(u.password)
    ensures forall i :: 0 <= i < |users + [u]| ==> IsHexDigest((users + [u])[i].password)
  {
  }

  /** How `delete_transaction` ends. */
  datatype DeleteOutcome =
    | Deleted            // a master confirmed: the DELETE ran and was logged
    | PermissionDenied   // the logged-in user is not a master
    | NotLoggedIn        // nobody is logged in: nothing happens
    | NotConfirmed       // a master declined the confirmation dialog

  /** The decision `delete_transaction` takes before touching the table. */
  function DeleteDecision(actor: Option<User>, confirmed: bool): (r: DeleteOutcome)
    ensures r == Deleted <==> actor.Some? && actor.value.role == Master && confirmed
    ensures r == PermissionDenied <==> actor.Some? && actor.value.role != Master
    ensures r == NotLoggedIn <==> actor.None?
  {
    if actor.None? then NotLoggedIn
    else if actor.value.role != Master then PermissionDenied
    else if !confirmed then NotConfirmed
    else Deleted
  }

  class Ledger {
    /** `hash_password`: SHA-256 over the UTF-8 bytes, hex-encoded, taken as given. */
    const hash: string -> string

    var users: seq<User>
    var transactions: seq<Transaction>
    var receivables: seq<Obligation>
    var payables: seq<Obligation>
    var history: seq<ChangeEntry>

    var nextUserId: nat
    var nextTransactionId: nat
    var nextReceivableId: nat
    var nextPayableId: nat
    var nextChangeId: nat

    /** The schema's constraints and what the operations keep true of the stored rows. */
    ghost predicate Valid()
      reads this
    {
      UsersValid() && TransactionsValid() && ReceivablesValid() && PayablesValid() && HistoryValid()
    }

    /** `usuarios`: unique usernames and cédulas, stored passwords are digests. */
    ghost predicate UsersValid()
      reads this`users, this`nextUserId
    {
      && DigestShaped(hash)
      && UniqueUsers(users) && UserKeys(users, nextUserId)
      && (forall i :: 0 <= i < |users| ==> IsHexDigest(users[i].password))
    }

    /** `transacciones`: unique keys, every amount positive. */
    ghost predicate TransactionsValid()
      reads this`transactions, this`nextTransactionId
    {
      TransactionKeys(transactions, nextTransactionId) && AllPositive(transactions)
    }

    /** `cuentas_por_cobrar`: unique keys, positive amounts, valid due dates, never 'vencida'. */
    ghost predicate ReceivablesValid()
      reads this`receivables, this`nextReceivableId
    {
      ObligationKeys(receivables, nextReceivableId) && WellFormed(receivables)
    }

    /** `cuentas_por_pagar`: the same constraints as the receivables. */
    ghost predicate PayablesValid()
      reads this`payables, this`nextPayableId
    {
      ObligationKeys(payables, nextPayableId) && WellFormed(payables)
    }

    /** `historial_cambios`: unique keys. */
    ghost predicate HistoryValid()
      reads this`history, this`nextChangeId
    {
      ChangeKeys(history, nextChangeId)
    }

    /** `init_db` on a fresh database file: five empty tables. */
    constructor (hash: string -> string)
      requires DigestShaped(hash)
      ensures Valid() && this.hash == hash
      ensures users == [] && transactions == [] && receivables == [] && payables == [] && history == []
      ensures nextUserId == 1 && nextTransactionId == 1 && nextReceivableId == 1
              && nextPayableId == 1 && nextChangeId == 1
    {
      this.hash := hash;
      users, transactions, receivables, payables, history := [], [], [], [], [];
      nextUserId, nextTransactionId, nextReceivableId, nextPayableId, nextChangeId := 1, 1, 1, 1, 1;
    }

    /** `log_change`: appends one entry to the change log. */
    method LogChange(usuario: string, accion: Action, tabla: string, registroId: int, descripcion: string)
      requires Valid()
      modifies this`history, this`nextChangeId
      ensures Valid()
      ensures history == old(history) + [ChangeEntry(old(nextChangeId), usuario, accion, tabla,
                                                     registroId, descripcion)]
      ensures nextChangeId == old(nextChangeId) + 1
    {
      var entry := ChangeEntry(nextChangeId, usuario, accion, tabla, registroId, descripcion);
      AppendChange(history, nextChangeId, entry);
      history := history + [entry];
      nextChangeId := nextChangeId + 1;
    }

    /** `register_user`: inserts the user when every check passes, otherwise stores nothing.
        A stored user can log in straight away with the password just given. */
    method Register(nombre: string, apellido: string, cedula: string, username: string,
                    password: string, role: Role) returns (r: RegisterOutcome)
      requires Valid()
      modifies this`users, this`nextUserId
      ensures Valid()
      ensures r == Registration(old(users), old(nextUserId), hash, nombre, apellido, cedula,
                                username, password, role)
      ensures users == if r.Registered? then old(users) + [r.user] else old(users)
      ensures nextUserId == if r.Registered? then old(nextUserId) + 1 else old(nextUserId)
      ensures r.Registered? ==> Authenticate(users, hash, username, password) == LoggedIn(r.user)
    {
      r := Registration(users, nextUserId, hash, nombre, apellido, cedula, username, password, role);
      if r.Registered? {
        RegisteredUserCanLogIn(users, nextUserId, hash, nombre, apellido, cedula, username,
                               password, role, r.user);
        AppendUserKeys(users, nextUserId, r.user);
        AppendDigest(users, r.user);
        users := users + [r.user];
        nextUserId := nextUserId + 1;
      }
    }

    /** `add_transaction`: when the input is accepted, appends exactly one row owned by the
        logged-in user and one "insert" entry for its key; otherwise changes nothing. */
    method AddTransaction(actor: Option<User>, tipo: Direction, monto: Option<real>,
                          moneda: Currency, medio: Medium, bancoVen: Option<real>,
                          bancoMercantil: Option<real>, bancoBanesco: Option<real>,
                          descripcion: string) returns (r: Result<Transaction, TxError>)
      requires Valid()
      modifies this`transactions, this`nextTransactionId, this`history, this`nextChangeId
      ensures Valid()
      ensures r == NewTransaction(old(nextTransactionId), actor, tipo, monto, moneda, medio,
                                  bancoVen, bancoMercantil, bancoBanesco, descripcion)
      ensures r.Failure? ==>
                && transactions == old(transactions) && nextTransactionId == old(nextTransactionId)
                && history == old(history) && nextChangeId == old(nextChangeId)
      ensures r.Success? ==>
                && transactions == old(transactions) + [r.value]
                && nextTransactionId == old(nextTransactionId) + 1
                && history == old(history) + [ChangeEntry(old(nextChangeId), actor.value.username,
                                                          Insert, "transacciones", r.value.id,
                                                          Strip(descripcion))]
                && nextChangeId == old(nextChangeId) + 1
      ensures NetBalance(transactions) ==
                NetBalance(old(transactions)) + (if r.Success? then Signed(r.value) else 0.0)
    {
      r := NewTransaction(nextTransactionId, actor, tipo, monto, moneda, medio,
                          bancoVen, bancoMercantil, bancoBanesco, descripcion);
      if r.Success? {
        NetBalanceAppend(transactions, r.value);
        AppendTransaction(transactions, nextTransactionId, r.value);
        transactions := transactions + [r.value];
        nextTransactionId := nextTransactionId + 1;
        LogChange(actor.value.username, Insert, "transacciones", r.value.id, Strip(descripcion));
      }
    }

    /** `delete_transaction`: only a master who confirms removes the row with key `id`
        (a hard delete), logging one "delete" entry for that key; otherwise nothing changes. */
    method DeleteTransaction(actor: Option<User>, id: int, confirmed: bool) returns (r: DeleteOutcome)
      requires Valid()
      modifies this`transactions, this`history, this`nextChangeId
      ensures Valid()
      ensures r == DeleteDecision(actor, confirmed)
      ensures r != Deleted ==>
                transactions == old(transactions) && history == old(history)
                && nextChangeId == old(nextChangeId)
      ensures r == Deleted ==>
                && transactions == RemoveId(old(transactions), id)
                && history == old(history) + [ChangeEntry(old(nextChangeId), actor.value.username,
                                                          Delete, "transacciones", id,
                                                          "Eliminada desde interfaz")]
                && nextChangeId == old(nextChangeId) + 1
      ensures r == Deleted ==> forall k :: 0 <= k < |old(transactions)| && old(transactions)[k].id == id ==>
                && transactions == old(transactions)[..k] + old(transactions)[k + 1..]
                && NetBalance(transactions) == NetBalance(old(transactions)) - Signed(old(transactions)[k])
      ensures r == Deleted ==>
                (forall k :: 0 <= k < |old(transactions)| ==> old(transactions)[k].id != id) ==>
                transactions == old(transactions)
    {
      r := DeleteDecision(actor, confirmed);
      if r == Deleted {
        RemoveById(transactions, nextTransactionId, id);
        transactions := RemoveId(transactions, id);
        LogChange(actor.value.username, Delete, "transacciones", id, "Eliminada desde interfaz");
      }
    }

    /** `add_cxc`: records a receivable as 'pendiente' when the input is accepted. */
    method AddReceivable(cliente: string, monto: Option<real>, moneda: Currency, due: Option<Date>,
                         descripcion: string) returns (r: Result<Obligation, ObligationError>)
      requires Valid()
      modifies this`receivables, this`nextReceivableId
      ensures Valid()
      ensures r == NewObligation(old(nextReceivableId), cliente, monto, moneda, due, descripcion)
      ensures receivables == if r.Success? then old(receivables) + [r.value] else old(receivables)
      ensures nextReceivableId == if r.Success? then old(nextReceivableId) + 1 else old(nextReceivableId)
    {
      r := NewObligation(nextReceivableId, cliente, monto, moneda, due, descripcion);
      if r.Success? {
        AppendObligation(receivables, nextReceivableId, r.value);
        receivables := receivables + [r.value];
        nextReceivableId := nextReceivableId + 1;
      }
    }

    /** `add_cxp`: records a payable as 'pendiente' when the input is accepted. */
    method AddPayable(proveedor: string, monto: Option<real>, moneda: Currency, due: Option<Date>,
                      descripcion: string) returns (r: Result<Obligation, ObligationError>)
      requires Valid()
      modifies this`payables, this`nextPayableId
      ensures Valid()
      ensures r == NewObligation(old(nextPayableId), proveedor, monto, moneda, due, descripcion)
      ensures payables == if r.Success? then old(payables) + [r.value] else old(payables)
      ensures nextPayableId == if r.Success? then old(nextPayableId) + 1 else old(nextPayableId)
    {
      r := NewObligation(nextPayableId, proveedor, monto, moneda, due, descripcion);
      if r.Success? {
        AppendObligation(payables, nextPayableId, r.value);
        payables := payables + [r.value];
        nextPayableId := nextPayableId + 1;
      }
    }

    /** `mark_paid_cxc`: the receivable with key `id`, if any, becomes 'pagada'. */
    method MarkReceivablePaid(id: int)
      requires Valid()
      modifies this`receivables
      ensures Valid()
      ensures receivables == MarkPaid(old(receivables), id)
      ensures forall k :: 0 <= k < |old(receivables)| && old(receivables)[k].id == id ==>
                receivables == old(receivables)[k := old(receivables)[k].(estado := Pagada)]
    {
      forall k | 0 <= k < |receivables| && receivables[k].id == id
        ensures MarkPaid(receivables, id) == receivables[k := receivables[k].(estado := Pagada)]
      {
        MarkPaidExisting(receivables, nextReceivableId, k);
      }
      MarkPaidKeepsInvariants(receivables, nextReceivableId, id);
      receivables := MarkPaid(receivables, id);
    }

    /** `mark_paid_cxp`: the payable with key `id`, if any, becomes 'pagada'. */
    method MarkPayablePaid(id: int)
      requires Valid()
      modifies this`payables
      ensures Valid()
      ensures payables == MarkPaid(old(payables), id)
      ensures forall k :: 0 <= k < |old(payables)| && old(payables)[k].id == id ==>
                payables == old(payables)[k := old(payables)[k].(estado := Pagada)]
    {
      forall k | 0 <= k < |payables| && payables[k].id == id
        ensures MarkPaid(payables, id) == payables[k := payables[k].(estado := Pagada)]
      {
        MarkPaidExisting(payables, nextPayableId, k);
      }
      MarkPaidKeepsInvariants(payables, nextPayableId, id);
      payables := MarkPaid(payables, id);
    }
  }
}
