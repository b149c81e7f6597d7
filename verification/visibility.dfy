/** What the read paths return: soft-deleted documents are dropped, moves and loans
    are further restricted to a window around the current month, and each survivor
    is annotated with its owners' identifiers. */
module Visibility {
  import opened Wrappers
  import opened Seqs
  import opened Clock
  import opened Base
  import opened MoveModel
  import opened LoanModel
  import opened AccountModel
  import opened BookModel

  /** The move window: the move's date has exactly the current month and year. An
      absent fecha is an Invalid Date, whose getMonth() is NaN and never equal. */
  predicate InCurrentMonth(fecha: Option<YearMonth>, today: YearMonth) {
    fecha.Some? && fecha.value.month == today.month && fecha.value.year == today.year
  }

  /** The loan window as the source writes it: end month >= current month AND end
      year >= current year, each component compared on its own. */
  predicate EndsNotBefore(fechaFin: YearMonth, today: YearMonth) {
    fechaFin.month >= today.month && fechaFin.year >= today.year
  }

  /** An independent reading of "the loan has not ended yet": its end month is not
      earlier than the current month in calendar order. */
  predicate NotYetEnded(fechaFin: YearMonth, today: YearMonth) {
    fechaFin.year > today.year || (fechaFin.year == today.year && fechaFin.month >= today.month)
  }

  /** The move window is an exact match on the whole month. */
  lemma InCurrentMonthIsExact(fecha: Option<YearMonth>, today: YearMonth)
    ensures InCurrentMonth(fecha, today) <==> fecha == Some(today)
  {
  }

  /** Every loan the component-wise test keeps has indeed not ended, but a loan ending
      in a month numbered lower than today's in a later year is dropped: in December
      2026 a loan ending in January 2027 is not shown. */
  lemma EndsNotBeforeIsStricter(fechaFin: YearMonth, today: YearMonth)
    ensures EndsNotBefore(fechaFin, today) ==> NotYetEnded(fechaFin, today)
    ensures NotYetEnded(fechaFin, today) && !EndsNotBefore(fechaFin, today)
            <==> fechaFin.year > today.year && fechaFin.month < today.month
  {
  }

  lemma DecemberHidesJanuaryLoan()
    ensures !EndsNotBefore(YearMonth(2027, 0), YearMonth(2026, 11))
    ensures NotYetEnded(YearMonth(2027, 0), YearMonth(2026, 11))
  {
  }

  predicate MoveShown(m: Move, today: YearMonth) {
    m.stamps.Live() && InCurrentMonth(m.data.fecha, today)
  }

  predicate LoanShown(l: Loan, today: YearMonth) {
    l.stamps.Live() && EndsNotBefore(l.data.fechaFin, today)
  }

  /** `{ ...move.toObject(), bookId, cuentaId, uid: move._id }`. */
  datatype MoveView = MoveView(move: Move, bookId: Id, cuentaId: Id, uid: Id)

  /** `{ ...loan.toObject(), bookId, uid: loan._id }`. */
  datatype LoanView = LoanView(loan: Loan, bookId: Id, uid: Id)

  /** `{ ...account.toObject(), bookId, uid: account._id }`. */
  datatype AccountView = AccountView(account: Account, bookId: Id, uid: Id)

  function MoveKeep(today: YearMonth): Move -> bool {
    (m: Move) => MoveShown(m, today)
  }

  function MoveLabel(bookId: Id, accountId: Id): Move -> MoveView {
    (m: Move) => MoveView(m, bookId, accountId, m.id)
  }

  function LoanKeep(today: YearMonth): Loan -> bool {
    (l: Loan) => LoanShown(l, today)
  }

  function LoanLabel(bookId: Id): Loan -> LoanView {
    (l: Loan) => LoanView(l, bookId, l.id)
  }

  function AccountKeep(): Account -> bool {
    (a: Account) => a.stamps.Live()
  }

  function AccountLabel(bookId: Id): Account -> AccountView {
    (a: Account) => AccountView(a, bookId, a.id)
  }

  function BookKeep(): Book -> bool {
    (b: Book) => b.stamps.Live()
  }

  function BookLabel(): Book -> BookJson {
    (b: Book) => BookModel.ToJson(b)
  }

  /** The moves of one account as every move read path returns them. */
  function MoveViews(moves: seq<Move>, bookId: Id, accountId: Id, today: YearMonth): (r: seq<MoveView>)
    ensures |r| <= |moves|
    ensures forall v :: v in r ==> v.move in moves && MoveShown(v.move, today)
    ensures forall v :: v in r ==> v.bookId == bookId && v.cuentaId == accountId && v.uid == v.move.id
    ensures forall m: Move :: MoveView(m, bookId, accountId, m.id) in r <==> m in moves && MoveShown(m, today)
  {
    Project(moves, MoveKeep(today), MoveLabel(bookId, accountId))
  }

  /** The loans of one book as every loan read path returns them. */
  function LoanViews(loans: seq<Loan>, bookId: Id, today: YearMonth): (r: seq<LoanView>)
    ensures |r| <= |loans|
    ensures forall v :: v in r ==> v.loan in loans && LoanShown(v.loan, today)
    ensures forall v :: v in r ==> v.bookId == bookId && v.uid == v.loan.id
    ensures forall l: Loan :: LoanView(l, bookId, l.id) in r <==> l in loans && LoanShown(l, today)
  {
    Project(loans, LoanKeep(today), LoanLabel(bookId))
  }

  /** The accounts of one book as every account read path returns them. */
  function AccountViews(accounts: seq<Account>, bookId: Id): (r: seq<AccountView>)
    ensures |r| <= |accounts|
    ensures forall v :: v in r ==> v.account in accounts && v.account.stamps.Live()
    ensures forall v :: v in r ==> v.bookId == bookId && v.uid == v.account.id
    ensures forall a: Account :: AccountView(a, bookId, a.id) in r <==> a in accounts && a.stamps.Live()
  {
    Project(accounts, AccountKeep(), AccountLabel(bookId))
  }

  /** `usuario.libros.filter(libro => !libro.deleted_at)`, serialised by toJSON. */
  function BookJsons(libros: seq<Book>): (r: seq<BookJson>)
    ensures |r| <= |libros|
    ensures forall j :: j in r ==> BookModel.FromJson(j) in libros && BookModel.FromJson(j).stamps.Live()
    ensures forall b :: BookModel.ToJson(b) in r <==> b in libros && b.stamps.Live()
  {
    Project(libros, BookKeep(), BookLabel())
  }

  /** Appending one move adds its view at the end exactly when it is shown. */
  lemma MoveViewsSnoc(moves: seq<Move>, m: Move, bookId: Id, accountId: Id, today: YearMonth)
    ensures MoveViews(moves + [m], bookId, accountId, today)
         == MoveViews(moves, bookId, accountId, today)
            + (if MoveShown(m, today) then [MoveView(m, bookId, accountId, m.id)] else [])
  {
    ProjectAppend(moves, [m], MoveKeep(today), MoveLabel(bookId, accountId));
  }

  /** Appending one loan adds its view at the end exactly when it is shown. */
  lemma LoanViewsSnoc(loans: seq<Loan>, l: Loan, bookId: Id, today: YearMonth)
    ensures LoanViews(loans + [l], bookId, today)
         == LoanViews(loans, bookId, today) + (if LoanShown(l, today) then [LoanView(l, bookId, l.id)] else [])
  {
    ProjectAppend(loans, [l], LoanKeep(today), LoanLabel(bookId));
  }

  /** Appending one account adds its view at the end exactly when it is not deleted. */
  lemma AccountViewsSnoc(accounts: seq<Account>, a: Account, bookId: Id)
    ensures AccountViews(accounts + [a], bookId)
         == AccountViews(accounts, bookId) + (if a.stamps.Live() then [AccountView(a, bookId, a.id)] else [])
  {
    ProjectAppend(accounts, [a], AccountKeep(), AccountLabel(bookId));
  }

  /** Appending one book adds its JSON at the end exactly when it is not deleted. */
  lemma BookJsonsSnoc(libros: seq<Book>, b: Book)
    ensures BookJsons(libros + [b]) == BookJsons(libros) + (if b.stamps.Live() then [BookModel.ToJson(b)] else [])
  {
    ProjectAppend(libros, [b], BookKeep(), BookLabel());
  }
}
