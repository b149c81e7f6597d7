/** The Book document (models/libro.js): a ledger embedding accounts and loans. */
module BookModel {
  import opened Wrappers
  import opened Clock
  import opened Base
  import opened LoanModel
  import opened AccountModel

  datatype Book = Book(id: Id, nombre: string, accounts: seq<Account>, loans: seq<Loan>, stamps: Stamps)

  /** The shape toJSON produces: `_id` renamed to `uid`, every other field kept. */
  datatype BookJson = BookJson(uid: Id, nombre: string, accounts: seq<Account>, loans: seq<Loan>, stamps: Stamps)

  /** The book `libros.push({ nombre })` builds at `now`. */
  function New(id: Id, nombre: string, now: Time): (b: Book)
    ensures b.id == id && b.nombre == nombre && b.accounts == [] && b.loans == []
    ensures b.stamps.Live() && b.stamps.created == now && b.stamps.updated == now
  {
    Book(id, nombre, [], [], Fresh(now))
  }

  /** The pre('save') hook of the book itself. */
  function PreSave(b: Book, now: Time): (r: Book)
    ensures r.stamps.updated == now
    ensures r.id == b.id && r.nombre == b.nombre && r.accounts == b.accounts && r.loans == b.loans
    ensures r.stamps.created == b.stamps.created && r.stamps.deleted == b.stamps.deleted
  {
    b.(stamps := Touch(b.stamps, now))
  }

  /** The book after its root document is saved: the hook has run on the book,
      on every account and move, and on every loan. */
  function Saved(b: Book, now: Time): (r: Book)
    ensures r.id == b.id && r.nombre == b.nombre && r.stamps == b.stamps.(updated := now)
    ensures |r.accounts| == |b.accounts| && |r.loans| == |b.loans|
    ensures forall k :: 0 <= k < |b.loans| ==> r.loans[k] == b.loans[k].(stamps := b.loans[k].stamps.(updated := now))
    ensures forall k :: 0 <= k < |b.accounts| ==>
              var a, a' := b.accounts[k], r.accounts[k];
              && a'.id == a.id && a'.nombre == a.nombre && a'.saldo == a.saldo
              && a'.stamps == a.stamps.(updated := now) && |a'.moves| == |a.moves|
              && forall n :: 0 <= n < |a.moves| ==>
                   a'.moves[n] == a.moves[n].(stamps := a.moves[n].stamps.(updated := now))
  {
    PreSave(b, now).(
      accounts := seq(|b.accounts|, i requires 0 <= i < |b.accounts| => AccountModel.Saved(b.accounts[i], now)),
      loans := seq(|b.loans|, i requires 0 <= i < |b.loans| => LoanModel.PreSave(b.loans[i], now)))
  }

  /** A book created in this request is already as its save leaves it. */
  lemma SavedNew(id: Id, nombre: string, now: Time)
    ensures Saved(New(id, nombre, now), now) == New(id, nombre, now)
  {
    assert Saved(New(id, nombre, now), now).accounts == [];
    assert Saved(New(id, nombre, now), now).loans == [];
  }

  /** softDelete: deleted_at becomes `now`; the book and everything in it are kept. */
  function SoftDelete(b: Book, now: Time): (r: Book)
    ensures r.stamps.deleted == Some(now) && !r.stamps.Live() && r.stamps.updated == now
    ensures r.id == b.id && r.nombre == b.nombre && r.accounts == b.accounts && r.loans == b.loans
    ensures r.stamps.created == b.stamps.created
  {
    b.(stamps := MarkDeleted(b.stamps, now))
  }

  /** Soft-deleting again is no error: it re-stamps with the later instant. */
  lemma SoftDeleteRestamps(b: Book, first: Time, second: Time)
    ensures SoftDelete(SoftDelete(b, first), second) == SoftDelete(b, second)
  {
  }

  function ToJson(b: Book): (j: BookJson)
    ensures j.uid == b.id && FromJson(j) == b
  {
    BookJson(b.id, b.nombre, b.accounts, b.loans, b.stamps)
  }

  /** The inverse of the renaming, so that toJSON is seen to lose nothing. */
  function FromJson(j: BookJson): Book {
    Book(j.uid, j.nombre, j.accounts, j.loans, j.stamps)
  }
}
