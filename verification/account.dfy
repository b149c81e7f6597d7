/** The Account document (models/account.js): a named balance in a book, owning
    its moves. The schema as written declares no `moves` path; this model gives
    the account the embedded move array the controllers use (see MovesController). */
module AccountModel {
  import opened Wrappers
  import opened Clock
  import opened Base
  import opened MoveModel

  datatype Account = Account(id: Id, nombre: string, saldo: int, moves: seq<Move>, stamps: Stamps)

  /** The shape toJSON produces: `_id` renamed to `uid`, every other field kept. */
  datatype AccountJson = AccountJson(uid: Id, nombre: string, saldo: int, moves: seq<Move>, stamps: Stamps)

  /** The account `accounts.push({ nombre, saldo })` builds at `now`. */
  function New(id: Id, nombre: string, saldo: int, now: Time): (a: Account)
    ensures a.id == id && a.nombre == nombre && a.saldo == saldo && a.moves == []
    ensures a.stamps.Live() && a.stamps.created == now && a.stamps.updated == now
  {
    Account(id, nombre, saldo, [], Fresh(now))
  }

  /** `cuenta.moves` under the schema as written: Mongoose defines property accessors
      only for declared paths and this schema declares no `moves`, so the property
      reads undefined and any method called on it throws a TypeError. */
  function MovesPropertyAsWritten(a: Account): (r: Option<seq<Move>>)
    ensures r.None?
  {
    None
  }

  /** The pre('save') hook of the account itself. */
  function PreSave(a: Account, now: Time): (r: Account)
    ensures r.stamps.updated == now
    ensures r.id == a.id && r.nombre == a.nombre && r.saldo == a.saldo && r.moves == a.moves
    ensures r.stamps.created == a.stamps.created && r.stamps.deleted == a.stamps.deleted
  {
    a.(stamps := Touch(a.stamps, now))
  }

  /** The account after its root document is saved: Mongoose runs the pre('save')
      hook of every embedded subdocument, so the account and each of its moves. */
  function Saved(a: Account, now: Time): (r: Account)
    ensures r.id == a.id && r.nombre == a.nombre && r.saldo == a.saldo
    ensures r.stamps == a.stamps.(updated := now)
    ensures |r.moves| == |a.moves|
    ensures forall n :: 0 <= n < |a.moves| ==> r.moves[n] == a.moves[n].(stamps := a.moves[n].stamps.(updated := now))
  {
    PreSave(a, now).(moves := seq(|a.moves|, i requires 0 <= i < |a.moves| => MoveModel.PreSave(a.moves[i], now)))
  }

  /** An account created in this request is already as its save leaves it. */
  lemma SavedNew(id: Id, nombre: string, saldo: int, now: Time)
    ensures Saved(New(id, nombre, saldo, now), now) == New(id, nombre, saldo, now)
  {
    assert Saved(New(id, nombre, saldo, now), now).moves == [];
  }

  /** softDelete: deleted_at becomes `now`; the account and its moves are kept. */
  function SoftDelete(a: Account, now: Time): (r: Account)
    ensures r.stamps.deleted == Some(now) && !r.stamps.Live() && r.stamps.updated == now
    ensures r.id == a.id && r.nombre == a.nombre && r.saldo == a.saldo && r.moves == a.moves
    ensures r.stamps.created == a.stamps.created
  {
    a.(stamps := MarkDeleted(a.stamps, now))
  }

  /** Soft-deleting again is no error: it re-stamps with the later instant. */
  lemma SoftDeleteRestamps(a: Account, first: Time, second: Time)
    ensures SoftDelete(SoftDelete(a, first), second) == SoftDelete(a, second)
  {
  }

  function ToJson(a: Account): (j: AccountJson)
    ensures j.uid == a.id && FromJson(j) == a
  {
    AccountJson(a.id, a.nombre, a.saldo, a.moves, a.stamps)
  }

  /** The inverse of the renaming, so that toJSON is seen to lose nothing. */
  function FromJson(j: AccountJson): Account {
    Account(j.uid, j.nombre, j.saldo, j.moves, j.stamps)
  }
}
