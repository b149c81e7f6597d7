/** The loan endpoints (controllers/loans.js): loans live in a book's `loans` array
    and are shown while their end month passes the component-wise window. */
module LoansController {
  import opened Wrappers
  import opened Clock
  import opened Base
  import opened LoanModel
  import opened BookModel
  import opened UserModel
  import opened Hierarchy
  import opened Visibility
  import opened Transaction

  const BookMissing := "Book not found"
  const LoanMissing := "Loan not found"

  /** create: push the loan onto the book's loans, save, answer with the shown loans. */
  function CreateWork(u: User, bookId: Id, data: LoanData, newId: Id, now: Now): (w: Work<seq<LoanView>>)
    ensures BookIndex(u, bookId).None? ==> w == Answer(Failed(BookMissing))
    ensures BookIndex(u, bookId).Some? ==>
      var i := BookIndex(u, bookId).value;
      var b := u.libros[i];
      var added := LoanModel.New(newId, data, now.instant);
      && w.Commit? && w.reply.Done? && w.reply.message == "Loan created" && w.reply.token == Jwt(u.id)
      && BooksKeptBut(u, w.user, i, now.instant)
      && var b2 := w.user.libros[i];
      && b2.id == b.id && b2.nombre == b.nombre && b2.stamps == Touch(b.stamps, now.instant)
      && b2.accounts == BookModel.Saved(b, now.instant).accounts
      && |b2.loans| == |b.loans| + 1
      && (forall k :: 0 <= k < |b.loans| ==> b2.loans[k] == LoanModel.PreSave(b.loans[k], now.instant))
      && b2.loans[|b.loans|] == added
      && w.reply.data == LoanViews(b2.loans, bookId, now.period)
      && w.reply.data == LoanViews(b2.loans[..|b.loans|], bookId, now.period)
                         + (if LoanShown(added, now.period) then [LoanView(added, bookId, newId)] else [])
  {
    match BookIndex(u, bookId)
    case None => Answer(Failed(BookMissing))
    case Some(i) =>
      var b := u.libros[i];
      var added := LoanModel.New(newId, data, now.instant);
      var saved := Save(u.(libros := u.libros[i := b.(loans := b.loans + [added])]), now.instant);
      var b2 := saved.libros[i];
      assert b2.loans == b2.loans[..|b.loans|] + [added];
      LoanViewsSnoc(b2.loans[..|b.loans|], added, bookId, now.period);
      Commit(Done("Loan created", LoanViews(b2.loans, b2.id, now.period), Jwt(u.id)), saved)
  }

  function Create(s: Store, uid: Id, bookId: Id, data: LoanData, newId: Id, now: Now): (r: Step<seq<LoanView>>)
    ensures r.reply.Failed? ==> r.store == s
  {
    Run(s, uid, (u: User) => CreateWork(u, bookId, data, newId, now), CreateFailed)
  }

  /** read: the book's shown loans, and no write. */
  function ReadWork(u: User, bookId: Id, now: Now): (w: Work<seq<LoanView>>)
    ensures w.Answer?
    ensures BookIndex(u, bookId).None? ==> w.reply == Failed(BookMissing)
    ensures BookIndex(u, bookId).Some? ==>
      w.reply == Done("Loans retrieved successfully",
                      LoanViews(u.libros[BookIndex(u, bookId).value].loans, bookId, now.period), Jwt(u.id))
  {
    match BookIndex(u, bookId)
    case None => Answer(Failed(BookMissing))
    case Some(i) =>
      var b := u.libros[i];
      Answer(Done("Loans retrieved successfully", LoanViews(b.loans, b.id, now.period), Jwt(u.id)))
  }

  function Read(s: Store, uid: Id, bookId: Id, now: Now): (r: Step<seq<LoanView>>)
    ensures r.store == s
  {
    Run(s, uid, (u: User) => ReadWork(u, bookId, now), ReadFailed)
  }

  /** update: the matched loan's six client fields are overwritten; its identifier
      and stamps other than updated_at are kept. */
  function UpdateWork(u: User, bookId: Id, loanId: Id, data: LoanData, now: Now): (w: Work<seq<LoanView>>)
    ensures BookIndex(u, bookId).None? ==> w == Answer(Failed(BookMissing))
    ensures BookIndex(u, bookId).Some? && LoanIndex(u.libros[BookIndex(u, bookId).value], loanId).None? ==>
      w == Answer(Failed(LoanMissing))
    ensures BookIndex(u, bookId).Some? && LoanIndex(u.libros[BookIndex(u, bookId).value], loanId).Some? ==>
      var i := BookIndex(u, bookId).value;
      var k := LoanIndex(u.libros[i], loanId).value;
      var b := u.libros[i];
      && w.Commit? && w.reply.Done? && w.reply.message == "Loan updated successfully"
      && BooksKeptBut(u, w.user, i, now.instant)
      && var b2 := w.user.libros[i];
      && LoansKeptBut(b, b2, k, now.instant)
      && b2.loans[k].id == loanId && b2.loans[k].data == data
      && b2.loans[k].stamps == Touch(b.loans[k].stamps, now.instant)
      && w.reply.data == LoanViews(b2.loans, bookId, now.period)
  {
    match BookIndex(u, bookId)
    case None => Answer(Failed(BookMissing))
    case Some(i) =>
      var b := u.libros[i];
      match LoanIndex(b, loanId)
      case None => Answer(Failed(LoanMissing))
      case Some(k) =>
        var l := b.loans[k].(data := data);
        var saved := Save(u.(libros := u.libros[i := b.(loans := b.loans[k := l])]), now.instant);
        Commit(Done("Loan updated successfully", LoanViews(saved.libros[i].loans, b.id, now.period), Jwt(u.id)), saved)
  }

  function Update(s: Store, uid: Id, bookId: Id, loanId: Id, data: LoanData, now: Now): (r: Step<seq<LoanView>>)
    ensures r.reply.Failed? ==> r.store == s
  {
    Run(s, uid, (u: User) => UpdateWork(u, bookId, loanId, data, now), UpdateFailed)
  }

  /** destroy as written: once the loan is found, its softDelete throws, so the
      transaction aborts. */
  function DestroyAsWrittenWork(u: User, bookId: Id, loanId: Id, now: Now): (w: Work<seq<LoanView>>)
    ensures BookIndex(u, bookId).None? ==> w == Answer(Failed(BookMissing))
    ensures BookIndex(u, bookId).Some? && LoanIndex(u.libros[BookIndex(u, bookId).value], loanId).None? ==>
      w == Answer(Failed(LoanMissing))
    ensures BookIndex(u, bookId).Some? && LoanIndex(u.libros[BookIndex(u, bookId).value], loanId).Some? ==>
      w.Throw?
  {
    match BookIndex(u, bookId)
    case None => Answer(Failed(BookMissing))
    case Some(i) =>
      var b := u.libros[i];
      match LoanIndex(b, loanId)
      case None => Answer(Failed(LoanMissing))
      case Some(k) =>
        match LoanModel.SoftDeleteAsWritten(b.loans[k], now.instant)
        case Threw => Throw
  }

  function DestroyAsWritten(s: Store, uid: Id, bookId: Id, loanId: Id, now: Now): (r: Step<seq<LoanView>>)
    ensures r.store == s
    ensures r.reply.Failed?
  {
    Run(s, uid, (u: User) => DestroyAsWrittenWork(u, bookId, loanId, now), DeleteFailed)
  }

  /** destroy as intended: the matched loan is soft-deleted; it stays in the book. */
  function DestroyWork(u: User, bookId: Id, loanId: Id, now: Now): (w: Work<seq<LoanView>>)
    ensures BookIndex(u, bookId).None? ==> w == Answer(Failed(BookMissing))
    ensures BookIndex(u, bookId).Some? && LoanIndex(u.libros[BookIndex(u, bookId).value], loanId).None? ==>
      w == Answer(Failed(LoanMissing))
    ensures BookIndex(u, bookId).Some? && LoanIndex(u.libros[BookIndex(u, bookId).value], loanId).Some? ==>
      var i := BookIndex(u, bookId).value;
      var k := LoanIndex(u.libros[i], loanId).value;
      var b := u.libros[i];
      && w.Commit? && w.reply.Done? && w.reply.message == "Loan deleted successfully"
      && BooksKeptBut(u, w.user, i, now.instant)
      && var b2 := w.user.libros[i];
      && LoansKeptBut(b, b2, k, now.instant)
      && b2.loans[k] == LoanModel.SoftDelete(b.loans[k], now.instant)
      && w.reply.data == LoanViews(b2.loans, bookId, now.period)
      && LoanView(b2.loans[k], bookId, loanId) !in w.reply.data
  {
    match BookIndex(u, bookId)
    case None => Answer(Failed(BookMissing))
    case Some(i) =>
      var b := u.libros[i];
      match LoanIndex(b, loanId)
      case None => Answer(Failed(LoanMissing))
      case Some(k) =>
        var l := LoanModel.SoftDelete(b.loans[k], now.instant);
        var saved := Save(u.(libros := u.libros[i := b.(loans := b.loans[k := l])]), now.instant);
        Commit(Done("Loan deleted successfully", LoanViews(saved.libros[i].loans, b.id, now.period), Jwt(u.id)), saved)
  }

  function Destroy(s: Store, uid: Id, bookId: Id, loanId: Id, now: Now): (r: Step<seq<LoanView>>)
    ensures r.reply.Failed? ==> r.store == s
  {
    Run(s, uid, (u: User) => DestroyWork(u, bookId, loanId, now), DeleteFailed)
  }
}
