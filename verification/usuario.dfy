/** The User document (models/usuario.js): the aggregate root, the only document
    persisted on its own. It embeds the user's books, which embed everything else. */
module UserModel {
  import opened Wrappers
  import opened Clock
  import opened Base
  import opened LoanModel
  import opened AccountModel
  import opened BookModel

  datatype User = User(id: Id, email: string, libros: seq<Book>, stamps: Stamps)

  /** The shape toJSON produces: `__v` dropped (the version key is not modelled),
      `_id` renamed to `uid`, every other field kept. */
  datatype UserJson = UserJson(uid: Id, email: string, libros: seq<Book>, stamps: Stamps)

  /** A user inserted with only its email: no books, schema default stamps. */
  function New(id: Id, email: string, now: Time): (u: User)
    ensures u.id == id && u.email == email && u.libros == []
    ensures u.stamps.Live() && u.stamps.created == now && u.stamps.updated == now
  {
    User(id, email, [], Fresh(now))
  }

  /** The pre('save') hook of the user document itself. */
  function PreSave(u: User, now: Time): (r: User)
    ensures r.stamps.updated == now
    ensures r.id == u.id && r.email == u.email && r.libros == u.libros
    ensures r.stamps.created == u.stamps.created && r.stamps.deleted == u.stamps.deleted
  {
    u.(stamps := Touch(u.stamps, now))
  }

  /** `usuario.save()`: Mongoose runs the pre('save') hook of the root and then of
      every embedded subdocument, so every updated_at in the tree becomes `now`.
      Saving touches only updated_at: at every level of the tree the identifiers,
      fields, creation and deletion stamps and collection lengths stay as they were. */
  function Save(u: User, now: Time): (r: User)
    ensures r.id == u.id && r.email == u.email && r.stamps == u.stamps.(updated := now)
    ensures |r.libros| == |u.libros|
    ensures forall i :: 0 <= i < |u.libros| ==>
              var b, b' := u.libros[i], r.libros[i];
              && b'.id == b.id && b'.nombre == b.nombre && b'.stamps == b.stamps.(updated := now)
              && |b'.accounts| == |b.accounts| && |b'.loans| == |b.loans|
              && (forall k :: 0 <= k < |b.loans| ==>
                    b'.loans[k] == b.loans[k].(stamps := b.loans[k].stamps.(updated := now)))
              && (forall k :: 0 <= k < |b.accounts| ==>
                    var a, a' := b.accounts[k], b'.accounts[k];
                    && a'.id == a.id && a'.nombre == a.nombre && a'.saldo == a.saldo
                    && a'.stamps == a.stamps.(updated := now) && |a'.moves| == |a.moves|
                    && forall n :: 0 <= n < |a.moves| ==>
                         a'.moves[n] == a.moves[n].(stamps := a.moves[n].stamps.(updated := now)))
  {
    PreSave(u, now).(libros := seq(|u.libros|, i requires 0 <= i < |u.libros| => BookModel.Saved(u.libros[i], now)))
  }

  /** softDelete: deleted_at becomes `now`, then the whole document is saved. */
  function SoftDelete(u: User, now: Time): (r: User)
    ensures r.stamps.deleted == Some(now) && !r.stamps.Live() && r.stamps.updated == now
    ensures r.id == u.id && r.email == u.email && |r.libros| == |u.libros|
    ensures r.stamps.created == u.stamps.created
    ensures forall i :: 0 <= i < |u.libros| ==> r.libros[i] == BookModel.Saved(u.libros[i], now)
  {
    Save(u.(stamps := MarkDeleted(u.stamps, now)), now)
  }

  function ToJson(u: User): (j: UserJson)
    ensures j.uid == u.id && FromJson(j) == u
  {
    UserJson(u.id, u.email, u.libros, u.stamps)
  }

  /** The inverse of the renaming, so that toJSON is seen to lose nothing. */
  function FromJson(j: UserJson): User {
    User(j.uid, j.email, j.libros, j.stamps)
  }

  /** Saving twice is saving once at the later instant. */
  lemma SaveTwice(u: User, first: Time, second: Time)
    ensures Save(Save(u, first), second) == Save(u, second)
  {
    var once := Save(u, first);
    forall i | 0 <= i < |u.libros|
      ensures BookModel.Saved(once.libros[i], second) == BookModel.Saved(u.libros[i], second)
    {
      var b := u.libros[i];
      var b1 := once.libros[i];
      forall k | 0 <= k < |b.accounts|
        ensures AccountModel.Saved(b1.accounts[k], second) == AccountModel.Saved(b.accounts[k], second)
      {
        var a := b.accounts[k];
        assert AccountModel.Saved(b1.accounts[k], second).moves == AccountModel.Saved(a, second).moves;
      }
      assert BookModel.Saved(b1, second).accounts == BookModel.Saved(b, second).accounts;
      assert BookModel.Saved(b1, second).loans == BookModel.Saved(b, second).loans;
    }
    assert Save(once, second).libros == Save(u, second).libros;
  }
}
