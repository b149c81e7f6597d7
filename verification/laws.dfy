/** Properties that relate several requests: the store invariant survives every
    committed request, a second delete still finds what the first one deleted, a
    read after a write returns what the write answered, and what is deleted stays
    out of every answer. */
module Laws {
  import opened Wrappers
  import opened Base
  import opened MoveModel
  import opened LoanModel
  import opened AccountModel
  import opened BookModel
  import opened UserModel
  import opened Hierarchy
  import opened Visibility
  import opened Transaction
  import BooksController
  import AccountsController
  import LoansController
  import MovesController

  /** A created book keeps the user's tree well formed when its identifier is new
      among the user's books. */
  lemma {:induction false} BookCreateKeepsWf(u: User, nombre: string, newId: Id, now: Clock.Now)
    requires UserWf(u)
    requires forall j :: 0 <= j < |u.libros| ==> u.libros[j].id != newId
    ensures UserWf(BooksController.CreateWork(u, nombre, newId, now).user)
  {
    var u1 := u.(libros := u.libros + [BookModel.New(newId, nombre, now.instant)]);
    assert forall j :: 0 <= j < |u.libros| ==> u1.libros[j] == u.libros[j];
    assert UserWf(u1);
    SaveKeepsWf(u1, now.instant);
  }

  /** Renaming or soft-deleting a book keeps the user's tree well formed. */
  lemma {:induction false} BookUpdateKeepsWf(u: User, libroId: Id, nombre: string, now: Clock.Now)
    requires UserWf(u)
    ensures BooksController.UpdateWork(u, libroId, nombre, now).Commit? ==>
              UserWf(BooksController.UpdateWork(u, libroId, nombre, now).user)
  {
    if BookIndex(u, libroId).Some? {
      var i := BookIndex(u, libroId).value;
      var u1 := u.(libros := u.libros[i := u.libros[i].(nombre := nombre)]);
      assert UserWf(u1);
      SaveKeepsWf(u1, now.instant);
    }
  }

  lemma {:induction false} BookDestroyKeepsWf(u: User, libroId: Id, now: Clock.Now)
    requires UserWf(u)
    ensures BooksController.DestroyWork(u, libroId, now).Commit? ==>
              UserWf(BooksController.DestroyWork(u, libroId, now).user)
  {
    if BookIndex(u, libroId).Some? {
      var i := BookIndex(u, libroId).value;
      var u1 := u.(libros := u.libros[i := BookModel.SoftDelete(u.libros[i], now.instant)]);
      assert UserWf(u1);
      SaveKeepsWf(u1, now.instant);
    }
  }

  /** Putting a well-formed book with the same identifier in place of book `i`
      keeps the user's tree well formed. */
  lemma ReplaceBookKeepsWf(u: User, i: nat, b: Book)
    requires UserWf(u) && i < |u.libros|
    requires BookWf(b) && b.id == u.libros[i].id
    ensures UserWf(u.(libros := u.libros[i := b]))
  {
  }

  /** Putting a well-formed account with the same identifier in place of account
      `k` keeps the book well formed. */
  lemma ReplaceAccountKeepsWf(b: Book, k: nat, a: Account)
    requires BookWf(b) && k < |b.accounts|
    requires AccountWf(a) && a.id == b.accounts[k].id
    ensures BookWf(b.(accounts := b.accounts[k := a]))
  {
  }

  /** A created account keeps the user's tree well formed when its identifier is
      new among the accounts of its book. */
  lemma {:induction false} AccountCreateKeepsWf(u: User, bookId: Id, nombre: string, saldo: int, newId: Id, now: Clock.Now)
    requires UserWf(u)
    requires BookIndex(u, bookId).Some? ==>
      forall k :: 0 <= k < |u.libros[BookIndex(u, bookId).value].accounts| ==> u.libros[BookIndex(u, bookId).value].accounts[k].id != newId
    ensures AccountsController.CreateWork(u, bookId, nombre, saldo, newId, now).Commit? ==>
              UserWf(AccountsController.CreateWork(u, bookId, nombre, saldo, newId, now).user)
  {
    if BookIndex(u, bookId).Some? {
      var i := BookIndex(u, bookId).value;
      var b := u.libros[i];
      var b1 := b.(accounts := b.accounts + [AccountModel.New(newId, nombre, saldo, now.instant)]);
      assert forall k :: 0 <= k < |b.accounts| ==> b1.accounts[k] == b.accounts[k];
      assert BookWf(b1);
      ReplaceBookKeepsWf(u, i, b1);
      SaveKeepsWf(u.(libros := u.libros[i := b1]), now.instant);
    }
  }

  /** Editing or soft-deleting an account keeps the user's tree well formed. */
  lemma {:induction false} AccountChangesKeepWf(u: User, bookId: Id, accountId: Id, nombre: string, saldo: int, now: Clock.Now)
    requires UserWf(u)
    ensures AccountsController.UpdateWork(u, bookId, accountId, nombre, saldo, now).Commit? ==>
              UserWf(AccountsController.UpdateWork(u, bookId, accountId, nombre, saldo, now).user)
    ensures AccountsController.DestroyWork(u, bookId, accountId, now).Commit? ==>
              UserWf(AccountsController.DestroyWork(u, bookId, accountId, now).user)
  {
    if BookIndex(u, bookId).Some? && AccountIndex(u.libros[BookIndex(u, bookId).value], accountId).Some? {
      var i := BookIndex(u, bookId).value;
      var b := u.libros[i];
      var k := AccountIndex(b, accountId).value;
      var b1 := b.(accounts := b.accounts[k := b.accounts[k].(nombre := nombre, saldo := saldo)]);
      ReplaceAccountKeepsWf(b, k, b1.accounts[k]);
      ReplaceBookKeepsWf(u, i, b1);
      SaveKeepsWf(u.(libros := u.libros[i := b1]), now.instant);
      var b2 := b.(accounts := b.accounts[k := AccountModel.SoftDelete(b.accounts[k], now.instant)]);
      ReplaceAccountKeepsWf(b, k, b2.accounts[k]);
      ReplaceBookKeepsWf(u, i, b2);
      SaveKeepsWf(u.(libros := u.libros[i := b2]), now.instant);
    }
  }

  /** A created loan keeps the user's tree well formed when its identifier is new
      among the loans of its book. */
  lemma {:induction false} LoanCreateKeepsWf(u: User, bookId: Id, data: LoanData, newId: Id, now: Clock.Now)
    requires UserWf(u)
    requires BookIndex(u, bookId).Some? ==>
      forall k :: 0 <= k < |u.libros[BookIndex(u, bookId).value].loans| ==> u.libros[BookIndex(u, bookId).value].loans[k].id != newId
    ensures LoansController.CreateWork(u, bookId, data, newId, now).Commit? ==>
              UserWf(LoansController.CreateWork(u, bookId, data, newId, now).user)
  {
    if BookIndex(u, bookId).Some? {
      var i := BookIndex(u, bookId).value;
      var b := u.libros[i];
      var b1 := b.(loans := b.loans + [LoanModel.New(newId, data, now.instant)]);
      assert forall k :: 0 <= k < |b.loans| ==> b1.loans[k] == b.loans[k];
      assert BookWf(b1);
      ReplaceBookKeepsWf(u, i, b1);
      SaveKeepsWf(u.(libros := u.libros[i := b1]), now.instant);
    }
  }

  /** Editing or soft-deleting a loan keeps the user's tree well formed. */
  lemma {:induction false} LoanChangesKeepWf(u: User, bookId: Id, loanId: Id, data: LoanData, now: Clock.Now)
    requires UserWf(u)
    ensures LoansController.UpdateWork(u, bookId, loanId, data, now).Commit? ==>
              UserWf(LoansController.UpdateWork(u, bookId, loanId, data, now).user)
    ensures LoansController.DestroyWork(u, bookId, loanId, now).Commit? ==>
              UserWf(LoansController.DestroyWork(u, bookId, loanId, now).user)
  {
    if BookIndex(u, bookId).Some? && LoanIndex(u.libros[BookIndex(u, bookId).value], loanId).Some? {
      var i := BookIndex(u, bookId).value;
      var b := u.libros[i];
      var k := LoanIndex(b, loanId).value;
      var b1 := b.(loans := b.loans[k := b.loans[k].(data := data)]);
      assert BookWf(b1);
      ReplaceBookKeepsWf(u, i, b1);
      SaveKeepsWf(u.(libros := u.libros[i := b1]), now.instant);
      var b2 := b.(loans := b.loans[k := LoanModel.SoftDelete(b.loans[k], now.instant)]);
      assert BookWf(b2);
      ReplaceBookKeepsWf(u, i, b2);
      SaveKeepsWf(u.(libros := u.libros[i := b2]), now.instant);
    }
  }

  /** A created move keeps the user's tree well formed when its identifier is new
      among the moves of its account. */
  lemma {:induction false} MoveCreateKeepsWf(u: User, bookId: Id, cuentaId: Id, data: MoveData, newId: Id, now: Clock.Now)
    requires UserWf(u)
    requires BookIndex(u, bookId).Some? && AccountIndex(u.libros[BookIndex(u, bookId).value], cuentaId).Some? ==>
      var b := u.libros[BookIndex(u, bookId).value];
      var a := b.accounts[AccountIndex(b, cuentaId).value];
      forall n :: 0 <= n < |a.moves| ==> a.moves[n].id != newId
    ensures MovesController.CreateWork(u, bookId, cuentaId, data, newId, now).Commit? ==>
              UserWf(MovesController.CreateWork(u, bookId, cuentaId, data, newId, now).user)
  {
    if BookIndex(u, bookId).Some? && AccountIndex(u.libros[BookIndex(u, bookId).value], cuentaId).Some? {
      var i := BookIndex(u, bookId).value;
      var b := u.libros[i];
      var k := AccountIndex(b, cuentaId).value;
      var a := b.accounts[k];
      var a1 := a.(moves := a.moves + [MoveModel.New(newId, data, now.instant)]);
      assert forall n :: 0 <= n < |a.moves| ==> a1.moves[n] == a.moves[n];
      assert AccountWf(a1);
      ReplaceAccountKeepsWf(b, k, a1);
      var b1 := b.(accounts := b.accounts[k := a1]);
      ReplaceBookKeepsWf(u, i, b1);
      SaveKeepsWf(u.(libros := u.libros[i := b1]), now.instant);
    }
  }

  /** Editing or soft-deleting a move keeps the user's tree well formed. */
  lemma {:induction false} MoveChangesKeepWf(u: User, bookId: Id, accountId: Id, moveId: Id, data: MoveData, now: Clock.Now)
    requires UserWf(u)
    ensures MovesController.UpdateWork(u, bookId, accountId, moveId, data, now).Commit? ==>
              UserWf(MovesController.UpdateWork(u, bookId, accountId, moveId, data, now).user)
    ensures MovesController.DestroyWork(u, bookId, accountId, moveId, now).Commit? ==>
              UserWf(MovesController.DestroyWork(u, bookId, accountId, moveId, now).user)
  {
    if && BookIndex(u, bookId).Some?
       && AccountIndex(u.libros[BookIndex(u, bookId).value], accountId).Some?
       && MoveIndex(u.libros[BookIndex(u, bookId).value].accounts[AccountIndex(u.libros[BookIndex(u, bookId).value], accountId).value], moveId).Some?
    {
      var i := BookIndex(u, bookId).value;
      var b := u.libros[i];
      var k := AccountIndex(b, accountId).value;
      var a := b.accounts[k];
      var n := MoveIndex(a, moveId).value;
      var a1 := a.(moves := a.moves[n := a.moves[n].(data := data)]);
      assert AccountWf(a1);
      ReplaceAccountKeepsWf(b, k, a1);
      ReplaceBookKeepsWf(u, i, b.(accounts := b.accounts[k := a1]));
      SaveKeepsWf(u.(libros := u.libros[i := b.(accounts := b.accounts[k := a1])]), now.instant);
      var a2 := a.(moves := a.moves[n := MoveModel.SoftDelete(a.moves[n], now.instant)]);
      assert AccountWf(a2);
      ReplaceAccountKeepsWf(b, k, a2);
      ReplaceBookKeepsWf(u, i, b.(accounts := b.accounts[k := a2]));
      SaveKeepsWf(u.(libros := u.libros[i := b.(accounts := b.accounts[k := a2])]), now.instant);
    }
  }

  /** A soft-deleted book is still found by its identifier, so deleting it again
      succeeds and re-stamps deleted_at with the later time. */
  lemma {:induction false} BookDestroyTwice(u: User, libroId: Id, first: Clock.Now, second: Clock.Now)
    requires BookIndex(u, libroId).Some?
    ensures var w1 := BooksController.DestroyWork(u, libroId, first);
      && w1.Commit?
      && BookIndex(w1.user, libroId) == BookIndex(u, libroId)
      && var w2 := BooksController.DestroyWork(w1.user, libroId, second);
      && var i := BookIndex(u, libroId).value;
      && w2.Commit? && w2.reply.message == "Book deleted successfully"
      && |w2.user.libros| == |u.libros|
      && w2.user.libros[i].stamps.deleted == Some(second.instant)
      && w2.user.libros[i].stamps.created == u.libros[i].stamps.created
  {
    var w1 := BooksController.DestroyWork(u, libroId, first);
    var i := BookIndex(u, libroId).value;
    assert forall j :: 0 <= j < |u.libros| ==> w1.user.libros[j].id == u.libros[j].id by {
      forall j | 0 <= j < |u.libros| ensures w1.user.libros[j].id == u.libros[j].id {
        if j != i {
          assert w1.user.libros[j] == BookModel.Saved(u.libros[j], first.instant);
        }
      }
    }
    BookIndexKept(u, w1.user, libroId);
  }

  /** Account lookups do not skip soft-deleted accounts: updating a deleted account
      succeeds, yet no account with that identifier appears in the answer. */
  lemma {:induction false} DeletedAccountUpdateStaysHidden(u: User, bookId: Id, accountId: Id, nombre: string, saldo: int, now: Clock.Now)
    requires UserWf(u)
    requires BookIndex(u, bookId).Some? && AccountIndex(u.libros[BookIndex(u, bookId).value], accountId).Some?
    requires !u.libros[BookIndex(u, bookId).value].accounts[AccountIndex(u.libros[BookIndex(u, bookId).value], accountId).value].stamps.Live()
    ensures var w := AccountsController.UpdateWork(u, bookId, accountId, nombre, saldo, now);
      && w.Commit? && w.reply.Done? && w.reply.message == "Account updated successfully"
      && forall v :: v in w.reply.data ==> v.uid != accountId
  {
    var w := AccountsController.UpdateWork(u, bookId, accountId, nombre, saldo, now);
    var i := BookIndex(u, bookId).value;
    var b := u.libros[i];
    var k := AccountIndex(b, accountId).value;
    var b2 := w.user.libros[i];
    assert BookWf(b);
    forall v | v in w.reply.data ensures v.uid != accountId {
      var j :| 0 <= j < |b2.accounts| && b2.accounts[j] == v.account;
      assert j != k;
      assert b2.accounts[j] == AccountModel.Saved(b.accounts[j], now.instant);
    }
  }

  /** With move identifiers unique in the account, no move with a destroyed move's
      identifier appears in the destroy's answer. */
  lemma {:induction false} DestroyedMoveLeavesAnswer(u: User, bookId: Id, accountId: Id, moveId: Id, now: Clock.Now)
    requires UserWf(u)
    requires BookIndex(u, bookId).Some? && AccountIndex(u.libros[BookIndex(u, bookId).value], accountId).Some?
    ensures var w := MovesController.DestroyWork(u, bookId, accountId, moveId, now);
      w.Commit? ==> forall v :: v in w.reply.data ==> v.uid != moveId
  {
    var w := MovesController.DestroyWork(u, bookId, accountId, moveId, now);
    if w.Commit? {
      var i := BookIndex(u, bookId).value;
      var b := u.libros[i];
      var k := AccountIndex(b, accountId).value;
      var a := b.accounts[k];
      var n := MoveIndex(a, moveId).value;
      var a2 := w.user.libros[i].accounts[k];
      assert BookWf(b) && AccountWf(a);
      forall v | v in w.reply.data ensures v.uid != moveId {
        var j :| 0 <= j < |a2.moves| && a2.moves[j] == v.move;
        assert j != n;
        assert a2.moves[j] == MoveModel.PreSave(a.moves[j], now.instant);
      }
    }
  }

  /** After an account is created, reading the book's accounts returns exactly the
      create's answer, which lists the new account. */
  lemma {:induction false} AccountCreateThenRead(u: User, bookId: Id, nombre: string, saldo: int, newId: Id, now: Clock.Now)
    requires BookIndex(u, bookId).Some?
    ensures var w := AccountsController.CreateWork(u, bookId, nombre, saldo, newId, now);
      && w.Commit?
      && AccountsController.ReadWork(w.user, bookId).reply == Done("Accounts retrieved successfully", w.reply.data, Jwt(u.id))
      && AccountView(AccountModel.New(newId, nombre, saldo, now.instant), bookId, newId) in w.reply.data
  {
    var w := AccountsController.CreateWork(u, bookId, nombre, saldo, newId, now);
    var i := BookIndex(u, bookId).value;
    assert forall j :: 0 <= j < |u.libros| ==> w.user.libros[j].id == u.libros[j].id by {
      forall j | 0 <= j < |u.libros| ensures w.user.libros[j].id == u.libros[j].id {
        if j != i {
          assert w.user.libros[j] == BookModel.Saved(u.libros[j], now.instant);
        }
      }
    }
    BookIndexKept(u, w.user, bookId);
  }

  /** After a loan is created, reading the book's loans returns exactly the create's
      answer, which lists the new loan exactly when its end date passes the window. */
  lemma {:induction false} LoanCreateThenRead(u: User, bookId: Id, data: LoanData, newId: Id, now: Clock.Now)
    requires BookIndex(u, bookId).Some?
    ensures var w := LoansController.CreateWork(u, bookId, data, newId, now);
      && w.Commit?
      && LoansController.ReadWork(w.user, bookId, now).reply == Done("Loans retrieved successfully", w.reply.data, Jwt(u.id))
      && (LoanView(LoanModel.New(newId, data, now.instant), bookId, newId) in w.reply.data
          <==> EndsNotBefore(data.fechaFin, now.period))
  {
    var w := LoansController.CreateWork(u, bookId, data, newId, now);
    var i := BookIndex(u, bookId).value;
    assert forall j :: 0 <= j < |u.libros| ==> w.user.libros[j].id == u.libros[j].id by {
      forall j | 0 <= j < |u.libros| ensures w.user.libros[j].id == u.libros[j].id {
        if j != i {
          assert w.user.libros[j] == BookModel.Saved(u.libros[j], now.instant);
        }
      }
    }
    BookIndexKept(u, w.user, bookId);
  }

  /** After a move is created, reading its account's moves returns exactly the
      create's answer, which lists the new move exactly when it is dated this month. */
  lemma {:induction false} MoveCreateThenRead(u: User, bookId: Id, cuentaId: Id, data: MoveData, newId: Id, now: Clock.Now)
    requires BookIndex(u, bookId).Some? && AccountIndex(u.libros[BookIndex(u, bookId).value], cuentaId).Some?
    ensures var w := MovesController.CreateWork(u, bookId, cuentaId, data, newId, now);
      && w.Commit?
      && MovesController.ReadWork(w.user, bookId, Some(cuentaId), now).reply == Done(MovesController.MovesRead, w.reply.data, Jwt(u.id))
      && (MoveView(MoveModel.New(newId, data, now.instant), bookId, cuentaId, newId) in w.reply.data
          <==> InCurrentMonth(data.fecha, now.period))
  {
    var w := MovesController.CreateWork(u, bookId, cuentaId, data, newId, now);
    var i := BookIndex(u, bookId).value;
    var b := u.libros[i];
    var k := AccountIndex(b, cuentaId).value;
    var b2 := w.user.libros[i];
    assert forall j :: 0 <= j < |u.libros| ==> w.user.libros[j].id == u.libros[j].id by {
      forall j | 0 <= j < |u.libros| ensures w.user.libros[j].id == u.libros[j].id {
        if j != i {
          assert w.user.libros[j] == BookModel.Saved(u.libros[j], now.instant);
        }
      }
    }
    BookIndexKept(u, w.user, bookId);
    assert forall j :: 0 <= j < |b.accounts| ==> b2.accounts[j].id == b.accounts[j].id by {
      forall j | 0 <= j < |b.accounts| ensures b2.accounts[j].id == b.accounts[j].id {
        if j != k {
          assert b2.accounts[j] == AccountModel.Saved(b.accounts[j], now.instant);
        }
      }
    }
    AccountIndexKept(b, b2, cuentaId);
  }

  /** Creating a move keeps the store invariant when the new identifier is not yet
      used by any move in the store. */
  lemma {:induction false} MoveCreateKeepsStoreWf(s: Store, uid: Id, bookId: Id, cuentaId: Id, data: MoveData, newId: Id, now: Clock.Now)
    requires StoreWf(s)
    requires forall i, j, k, n ::
      (0 <= i < |s.users| && 0 <= j < |s.users[i].libros| && 0 <= k < |s.users[i].libros[j].accounts|
       && 0 <= n < |s.users[i].libros[j].accounts[k].moves|) ==> s.users[i].libros[j].accounts[k].moves[n].id != newId
    ensures StoreWf(MovesController.Create(s, uid, bookId, cuentaId, data, newId, now).store)
  {
    if UserIndex(s, uid).Some? {
      var i := UserIndex(s, uid).value;
      var u := s.users[i];
      var w := MovesController.CreateWork(u, bookId, cuentaId, data, newId, now);
      if w.Commit? {
        MoveCreateKeepsWf(u, bookId, cuentaId, data, newId, now);
        ReplaceUserKeepsWf(s, i, w.user);
      }
    }
  }
}
