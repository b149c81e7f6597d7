/** The Loan document (models/loan.js): a scheduled obligation kept in a book. */
module LoanModel {
  import opened Wrappers
  import opened Clock
  import opened Base

  /** The client-supplied fields. All are required except cuentaId, a weak reference
      to an account that defaults to null (None) and is never checked. */
  datatype LoanData = LoanData(
    nombre: string,
    cantidad: int,
    cuentaId: Option<Id>,
    fechaInicio: YearMonth,
    fechaFin: YearMonth,
    tipoMovimientoId: string)

  datatype Loan = Loan(id: Id, data: LoanData, stamps: Stamps)

  /** The shape toJSON produces: `_id` renamed to `uid`, every other field kept. */
  datatype LoanJson = LoanJson(uid: Id, data: LoanData, stamps: Stamps)

  /** A loan built from client data at `now`: the schema defaults apply. */
  function New(id: Id, data: LoanData, now: Time): (l: Loan)
    ensures l.id == id && l.data == data
    ensures l.stamps.Live() && l.stamps.created == now && l.stamps.updated == now
  {
    Loan(id, data, Fresh(now))
  }

  /** The pre('save') hook: only updated_at changes, to `now`. */
  function PreSave(l: Loan, now: Time): (r: Loan)
    ensures r.stamps.updated == now
    ensures r.id == l.id && r.data == l.data
    ensures r.stamps.created == l.stamps.created && r.stamps.deleted == l.stamps.deleted
  {
    l.(stamps := Touch(l.stamps, now))
  }

  /** softDelete as written: `new Date.now()` applies `new` to Date.now, which is not
      a constructor, so the call throws before deleted_at is assigned. */
  function SoftDeleteAsWritten(l: Loan, now: Time): (r: Attempt<Loan>)
    ensures r.Threw?
  {
    Threw
  }

  /** softDelete as evidently intended (`new Date()`): deleted_at becomes `now`. */
  function SoftDelete(l: Loan, now: Time): (r: Loan)
    ensures r.stamps.deleted == Some(now) && !r.stamps.Live() && r.stamps.updated == now
    ensures r.id == l.id && r.data == l.data && r.stamps.created == l.stamps.created
  {
    l.(stamps := MarkDeleted(l.stamps, now))
  }

  /** Soft-deleting again is no error: it re-stamps with the later instant. */
  lemma SoftDeleteRestamps(l: Loan, first: Time, second: Time)
    ensures SoftDelete(SoftDelete(l, first), second) == SoftDelete(l, second)
  {
  }

  function ToJson(l: Loan): (j: LoanJson)
    ensures j.uid == l.id && FromJson(j) == l
  {
    LoanJson(l.id, l.data, l.stamps)
  }

  /** The inverse of the renaming, so that toJSON is seen to lose nothing. */
  function FromJson(j: LoanJson): Loan {
    Loan(j.uid, j.data, j.stamps)
  }
}
