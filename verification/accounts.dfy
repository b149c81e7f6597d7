/** The account endpoints (controllers/accounts.js): accounts live in a book's
    `accounts` array; both levels are found with DocumentArray#id. */
module AccountsController {
  import opened Wrappers
  import opened Clock
  import opened Base
  import opened AccountModel
  import opened BookModel
  import opened UserModel
  import opened Hierarchy
  import opened Visibility
  import opened Transaction

  const BookMissing := "Book not found"
  const AccountMissing := "Account not found"

  /** create: push `{ nombre, saldo }` onto the book's accounts, save, answer with
      the book's live accounts. */
  function CreateWork(u: User, bookId: Id, nombre: string, saldo: int, newId: Id, now: Now): (w: Work<seq<AccountView>>)
    ensures BookIndex(u, bookId).None? ==> w == Answer(Failed(BookMissing))
    ensures BookIndex(u, bookId).Some? ==>
      var i := BookIndex(u, bookId).value;
      var b := u.libros[i];
      var added := AccountModel.New(newId, nombre, saldo, now.instant);
      && w.Commit? && w.reply.Done? && w.reply.message == "Account created" && w.reply.token == Jwt(u.id)
      && BooksKeptBut(u, w.user, i, now.instant)
      && var b2 := w.user.libros[i];
      && b2.id == b.id && b2.nombre == b.nombre && b2.stamps == Touch(b.stamps, now.instant)
      && b2.loans == BookModel.Saved(b, now.instant).loans
      && |b2.accounts| == |b.accounts| + 1
      && (forall k :: 0 <= k < |b.accounts| ==> b2.accounts[k] == AccountModel.Saved(b.accounts[k], now.instant))
      && b2.accounts[|b.accounts|] == added
      && w.reply.data == AccountViews(b2.accounts, bookId)
      && w.reply.data == AccountViews(b2.accounts[..|b.accounts|], bookId) + [AccountView(added, bookId, newId)]
  {
    match BookIndex(u, bookId)
    case None => Answer(Failed(BookMissing))
    case Some(i) =>
      var b := u.libros[i];
      var added := AccountModel.New(newId, nombre, saldo, now.instant);
      var saved := Save(u.(libros := u.libros[i := b.(accounts := b.accounts + [added])]), now.instant);
      var b2 := saved.libros[i];
      AccountModel.SavedNew(newId, nombre, saldo, now.instant);
      assert b2.accounts == b2.accounts[..|b.accounts|] + [added];
      AccountViewsSnoc(b2.accounts[..|b.accounts|], added, bookId);
      Commit(Done("Account created", AccountViews(b2.accounts, b2.id), Jwt(u.id)), saved)
  }

  function Create(s: Store, uid: Id, bookId: Id, nombre: string, saldo: int, newId: Id, now: Now): (r: Step<seq<AccountView>>)
    ensures r.reply.Failed? ==> r.store == s
  {
    Run(s, uid, (u: User) => CreateWork(u, bookId, nombre, saldo, newId, now), CreateFailed)
  }

  /** read: the book's live accounts, and no write. */
  function ReadWork(u: User, bookId: Id): (w: Work<seq<AccountView>>)
    ensures w.Answer?
    ensures BookIndex(u, bookId).None? ==> w.reply == Failed(BookMissing)
    ensures BookIndex(u, bookId).Some? ==>
      w.reply == Done("Accounts retrieved successfully", AccountViews(u.libros[BookIndex(u, bookId).value].accounts, bookId), Jwt(u.id))
  {
    match BookIndex(u, bookId)
    case None => Answer(Failed(BookMissing))
    case Some(i) =>
      var b := u.libros[i];
      Answer(Done("Accounts retrieved successfully", AccountViews(b.accounts, b.id), Jwt(u.id)))
  }

  function Read(s: Store, uid: Id, bookId: Id): (r: Step<seq<AccountView>>)
    ensures r.store == s
  {
    Run(s, uid, (u: User) => ReadWork(u, bookId), ReadFailed)
  }

  /** update: the matched account, deleted or not, gets the new nombre and saldo. */
  function UpdateWork(u: User, bookId: Id, accountId: Id, nombre: string, saldo: int, now: Now): (w: Work<seq<AccountView>>)
    ensures BookIndex(u, bookId).None? ==> w == Answer(Failed(BookMissing))
    ensures BookIndex(u, bookId).Some? && AccountIndex(u.libros[BookIndex(u, bookId).value], accountId).None? ==>
      w == Answer(Failed(AccountMissing))
    ensures BookIndex(u, bookId).Some? && AccountIndex(u.libros[BookIndex(u, bookId).value], accountId).Some? ==>
      var i := BookIndex(u, bookId).value;
      var k := AccountIndex(u.libros[i], accountId).value;
      var b := u.libros[i];
      && w.Commit? && w.reply.Done? && w.reply.message == "Account updated successfully"
      && BooksKeptBut(u, w.user, i, now.instant)
      && var b2 := w.user.libros[i];
      && AccountsKeptBut(b, b2, k, now.instant)
      && b2.accounts[k] == AccountModel.Saved(b.accounts[k], now.instant).(nombre := nombre, saldo := saldo)
      && w.reply.data == AccountViews(b2.accounts, bookId)
  {
    match BookIndex(u, bookId)
    case None => Answer(Failed(BookMissing))
    case Some(i) =>
      var b := u.libros[i];
      match AccountIndex(b, accountId)
      case None => Answer(Failed(AccountMissing))
      case Some(k) =>
        var a := b.accounts[k].(nombre := nombre, saldo := saldo);
        var saved := Save(u.(libros := u.libros[i := b.(accounts := b.accounts[k := a])]), now.instant);
        Commit(Done("Account updated successfully", AccountViews(saved.libros[i].accounts, b.id), Jwt(u.id)), saved)
  }

  function Update(s: Store, uid: Id, bookId: Id, accountId: Id, nombre: string, saldo: int, now: Now): (r: Step<seq<AccountView>>)
    ensures r.reply.Failed? ==> r.store == s
  {
    Run(s, uid, (u: User) => UpdateWork(u, bookId, accountId, nombre, saldo, now), UpdateFailed)
  }

  /** destroy: the matched account is soft-deleted; it stays in the book. */
  function DestroyWork(u: User, bookId: Id, accountId: Id, now: Now): (w: Work<seq<AccountView>>)
    ensures BookIndex(u, bookId).None? ==> w == Answer(Failed(BookMissing))
    ensures BookIndex(u, bookId).Some? && AccountIndex(u.libros[BookIndex(u, bookId).value], accountId).None? ==>
      w == Answer(Failed(AccountMissing))
    ensures BookIndex(u, bookId).Some? && AccountIndex(u.libros[BookIndex(u, bookId).value], accountId).Some? ==>
      var i := BookIndex(u, bookId).value;
      var k := AccountIndex(u.libros[i], accountId).value;
      var b := u.libros[i];
      && w.Commit? && w.reply.Done? && w.reply.message == "Account deleted successfully"
      && BooksKeptBut(u, w.user, i, now.instant)
      && var b2 := w.user.libros[i];
      && AccountsKeptBut(b, b2, k, now.instant)
      && b2.accounts[k] == AccountModel.Saved(AccountModel.SoftDelete(b.accounts[k], now.instant), now.instant)
      && b2.accounts[k].stamps.deleted == Some(now.instant)
      && w.reply.data == AccountViews(b2.accounts, bookId)
      && AccountView(b2.accounts[k], bookId, accountId) !in w.reply.data
  {
    match BookIndex(u, bookId)
    case None => Answer(Failed(BookMissing))
    case Some(i) =>
      var b := u.libros[i];
      match AccountIndex(b, accountId)
      case None => Answer(Failed(AccountMissing))
      case Some(k) =>
        var a := AccountModel.SoftDelete(b.accounts[k], now.instant);
        var saved := Save(u.(libros := u.libros[i := b.(accounts := b.accounts[k := a])]), now.instant);
        Commit(Done("Account deleted successfully", AccountViews(saved.libros[i].accounts, b.id), Jwt(u.id)), saved)
  }

  function Destroy(s: Store, uid: Id, bookId: Id, accountId: Id, now: Now): (r: Step<seq<AccountView>>)
    ensures r.reply.Failed? ==> r.store == s
  {
    Run(s, uid, (u: User) => DestroyWork(u, bookId, accountId, now), DeleteFailed)
  }
}
