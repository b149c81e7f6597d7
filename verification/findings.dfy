/** Two defects of the source, each shown on one concrete store: the store holds a
    single user (id 1) with one book (id 2) holding one account (id 3) and one loan
    (id 4), and the request comes at instant 10 in October 2026. */
module Findings {
  import opened Wrappers
  import opened Clock
  import opened Base
  import opened MoveModel
  import opened LoanModel
  import opened AccountModel
  import opened BookModel
  import opened UserModel
  import opened Hierarchy
  import opened Transaction
  import LoansController
  import MovesController

  function Today(): Now {
    Now(10, YearMonth(2026, 9))
  }

  function Sample(): (s: Store)
    ensures |s.users| == 1 && |s.users[0].libros| == 1
  {
    var account := AccountModel.New(3, "Wallet", 0, 0);
    var loan := LoanModel.New(4, LoanData("Car", 1000, None, YearMonth(2026, 0), YearMonth(2027, 11), "loan"), 0);
    var book := Book(2, "Home", [account], [loan], Fresh(0));
    Store([User(1, "someone@example.com", [book], Fresh(0))])
  }

  /** The account schema declares no `moves` path, so creating a move in an existing
      account ends in 'Create failed' and stores nothing; over accounts that embed
      their moves the same request stores the move and answers 'Move created'. */
  lemma MoveCreateNeedsMovesPath()
    ensures var data := MoveData(25, "food", "lunch", Some(YearMonth(2026, 9)), "Lunch", "expense");
      && MovesController.CreateAsWritten(Sample(), 1, 2, 3, data, 5, Today()) == Step(Failed(CreateFailed), Sample())
      && var r := MovesController.Create(Sample(), 1, 2, 3, data, 5, Today());
      && r.reply.Done? && r.reply.message == "Move created"
      && r.store.users[0].libros[0].accounts[0].moves == [MoveModel.New(5, data, 10)]
  {
    var s := Sample();
    var data := MoveData(25, "food", "lunch", Some(YearMonth(2026, 9)), "Lunch", "expense");
    assert UserIndex(s, 1) == Some(0);
    assert BookIndex(s.users[0], 2) == Some(0);
    assert AccountIndex(s.users[0].libros[0], 3) == Some(0);
  }

  /** `new Date.now()` throws, so deleting an existing loan ends in 'Delete failed'
      and the loan stays live; with `new Date()` the loan is marked deleted. */
  lemma LoanDeleteNeverDeletes()
    ensures LoansController.DestroyAsWritten(Sample(), 1, 2, 4, Today()) == Step(Failed(DeleteFailed), Sample())
    ensures Sample().users[0].libros[0].loans[0].stamps.Live()
    ensures var r := LoansController.Destroy(Sample(), 1, 2, 4, Today());
      && r.reply.Done? && r.reply.message == "Loan deleted successfully"
      && r.store.users[0].libros[0].loans[0].stamps.deleted == Some(10)
  {
    var s := Sample();
    assert UserIndex(s, 1) == Some(0);
    assert BookIndex(s.users[0], 2) == Some(0);
    assert LoanIndex(s.users[0].libros[0], 4) == Some(0);
  }
}
