/** The containment hierarchy: the store of users, each owning books, each owning
    accounts and loans, each account owning moves. Lookup at every level is a linear
    scan of the parent's collection by identifier, and it does not skip soft-deleted
    children. Identifiers are unique only within their parent's collection. */
module Hierarchy {
  import opened Wrappers
  import opened Seqs
  import opened Base
  import opened MoveModel
  import opened LoanModel
  import opened AccountModel
  import opened BookModel
  import opened UserModel

  /** The users collection of the database. */
  datatype Store = Store(users: seq<User>)

  /** `Usuario.findById(uid)`. */
  function UserIndex(s: Store, uid: Id): (r: Option<nat>)
    ensures r.Some? ==> r.value < |s.users| && s.users[r.value].id == uid
    ensures r.None? <==> forall j :: 0 <= j < |s.users| ==> s.users[j].id != uid
  {
    Find(s.users, (u: User) => u.id == uid)
  }

  /** `Usuario.findOne({ email })`: the first user with that email. */
  function EmailIndex(s: Store, email: string): (r: Option<nat>)
    ensures r.Some? ==> r.value < |s.users| && s.users[r.value].email == email
    ensures r.None? <==> forall j :: 0 <= j < |s.users| ==> s.users[j].email != email
  {
    Find(s.users, (u: User) => u.email == email)
  }

  /** `usuario.libros.id(bookId)`, and equally the findIndex of the book controller. */
  function BookIndex(u: User, bookId: Id): (r: Option<nat>)
    ensures r.Some? ==> r.value < |u.libros| && u.libros[r.value].id == bookId
    ensures r.Some? ==> forall j :: 0 <= j < r.value ==> u.libros[j].id != bookId
    ensures r.None? <==> forall j :: 0 <= j < |u.libros| ==> u.libros[j].id != bookId
  {
    Find(u.libros, (b: Book) => b.id == bookId)
  }

  /** `libro.accounts.id(accountId)`. */
  function AccountIndex(b: Book, accountId: Id): (r: Option<nat>)
    ensures r.Some? ==> r.value < |b.accounts| && b.accounts[r.value].id == accountId
    ensures r.Some? ==> forall j :: 0 <= j < r.value ==> b.accounts[j].id != accountId
    ensures r.None? <==> forall j :: 0 <= j < |b.accounts| ==> b.accounts[j].id != accountId
  {
    Find(b.accounts, (a: Account) => a.id == accountId)
  }

  /** `libro.loans.id(loanId)`. */
  function LoanIndex(b: Book, loanId: Id): (r: Option<nat>)
    ensures r.Some? ==> r.value < |b.loans| && b.loans[r.value].id == loanId
    ensures r.Some? ==> forall j :: 0 <= j < r.value ==> b.loans[j].id != loanId
    ensures r.None? <==> forall j :: 0 <= j < |b.loans| ==> b.loans[j].id != loanId
  {
    Find(b.loans, (l: Loan) => l.id == loanId)
  }

  /** `cuenta.moves.id(moveId)`. */
  function MoveIndex(a: Account, moveId: Id): (r: Option<nat>)
    ensures r.Some? ==> r.value < |a.moves| && a.moves[r.value].id == moveId
    ensures r.Some? ==> forall j :: 0 <= j < r.value ==> a.moves[j].id != moveId
    ensures r.None? <==> forall j :: 0 <= j < |a.moves| ==> a.moves[j].id != moveId
  {
    Find(a.moves, (m: Move) => m.id == moveId)
  }

  /** Identifiers are unique within every collection of the user's tree. */
  ghost predicate UserWf(u: User) {
    && (forall i, j :: 0 <= i < j < |u.libros| ==> u.libros[i].id != u.libros[j].id)
    && forall i :: 0 <= i < |u.libros| ==> BookWf(u.libros[i])
  }

  ghost predicate BookWf(b: Book) {
    && (forall i, j :: 0 <= i < j < |b.accounts| ==> b.accounts[i].id != b.accounts[j].id)
    && (forall i, j :: 0 <= i < j < |b.loans| ==> b.loans[i].id != b.loans[j].id)
    && forall k :: 0 <= k < |b.accounts| ==> AccountWf(b.accounts[k])
  }

  ghost predicate AccountWf(a: Account) {
    forall i, j :: 0 <= i < j < |a.moves| ==> a.moves[i].id != a.moves[j].id
  }

  /** The store invariant: user identifiers are unique, emails are unique (the
      schema's `unique: true` index), and every user's tree is well formed. */
  ghost predicate StoreWf(s: Store) {
    && (forall i, j :: 0 <= i < j < |s.users| ==> s.users[i].id != s.users[j].id)
    && (forall i, j :: 0 <= i < j < |s.users| ==> s.users[i].email != s.users[j].email)
    && forall i :: 0 <= i < |s.users| ==> UserWf(s.users[i])
  }

  /** Saving changes no identifier, so it keeps the tree well formed. */
  lemma SaveKeepsWf(u: User, now: Clock.Time)
    requires UserWf(u)
    ensures UserWf(Save(u, now))
  {
  }
  /** Committing a well-formed user document with the same identifier and email
      keeps the store invariant. */
  lemma ReplaceUserKeepsWf(s: Store, i: nat, u: User)
    requires StoreWf(s) && i < |s.users|
    requires UserWf(u) && u.id == s.users[i].id && u.email == s.users[i].email
    ensures StoreWf(Store(s.users[i := u]))
  {
  }

  /** `u2` is `u` after a save at `now` in which only book `i` may have changed
      otherwise: the user's own fields and every other book are just re-stamped. */
  ghost predicate BooksKeptBut(u: User, u2: User, i: nat, now: Clock.Time) {
    && u2.id == u.id && u2.email == u.email && u2.stamps == Touch(u.stamps, now)
    && |u2.libros| == |u.libros| && i < |u.libros|
    && forall j :: 0 <= j < |u.libros| && j != i ==> u2.libros[j] == BookModel.Saved(u.libros[j], now)
  }

  /** `b2` is book `b` after a save at `now` in which only account `k` may have
      changed otherwise: the book's fields, its loans and other accounts are re-stamped. */
  ghost predicate AccountsKeptBut(b: Book, b2: Book, k: nat, now: Clock.Time) {
    && b2.id == b.id && b2.nombre == b.nombre && b2.stamps == Touch(b.stamps, now)
    && b2.loans == BookModel.Saved(b, now).loans
    && |b2.accounts| == |b.accounts| && k < |b.accounts|
    && forall j :: 0 <= j < |b.accounts| && j != k ==> b2.accounts[j] == AccountModel.Saved(b.accounts[j], now)
  }

  /** `b2` is book `b` after a save at `now` in which only loan `k` may have changed
      otherwise: the book's fields, its accounts and other loans are re-stamped. */
  ghost predicate LoansKeptBut(b: Book, b2: Book, k: nat, now: Clock.Time) {
    && b2.id == b.id && b2.nombre == b.nombre && b2.stamps == Touch(b.stamps, now)
    && b2.accounts == BookModel.Saved(b, now).accounts
    && |b2.loans| == |b.loans| && k < |b.loans|
    && forall j :: 0 <= j < |b.loans| && j != k ==> b2.loans[j] == LoanModel.PreSave(b.loans[j], now)
  }

  /** `a2` is account `a` after a save at `now` in which only move `n` may have
      changed otherwise: the account's fields and other moves are re-stamped. */
  ghost predicate MovesKeptBut(a: Account, a2: Account, n: nat, now: Clock.Time) {
    && a2.id == a.id && a2.nombre == a.nombre && a2.saldo == a.saldo && a2.stamps == Touch(a.stamps, now)
    && |a2.moves| == |a.moves| && n < |a.moves|
    && forall j :: 0 <= j < |a.moves| && j != n ==> a2.moves[j] == MoveModel.PreSave(a.moves[j], now)
  }

  /** Lookup by identifier gives the same answer after any change that keeps
      identifiers in place, such as a save, an update or a soft delete. */
  lemma BookIndexKept(u: User, u2: User, bookId: Id)
    requires |u2.libros| == |u.libros|
    requires forall j :: 0 <= j < |u.libros| ==> u2.libros[j].id == u.libros[j].id
    ensures BookIndex(u2, bookId) == BookIndex(u, bookId)
  {
    FindPointwise(u2.libros, (b: Book) => b.id == bookId, u.libros, (b: Book) => b.id == bookId);
  }

  lemma AccountIndexKept(b: Book, b2: Book, accountId: Id)
    requires |b2.accounts| == |b.accounts|
    requires forall j :: 0 <= j < |b.accounts| ==> b2.accounts[j].id == b.accounts[j].id
    ensures AccountIndex(b2, accountId) == AccountIndex(b, accountId)
  {
    FindPointwise(b2.accounts, (a: Account) => a.id == accountId, b.accounts, (a: Account) => a.id == accountId);
  }

  lemma LoanIndexKept(b: Book, b2: Book, loanId: Id)
    requires |b2.loans| == |b.loans|
    requires forall j :: 0 <= j < |b.loans| ==> b2.loans[j].id == b.loans[j].id
    ensures LoanIndex(b2, loanId) == LoanIndex(b, loanId)
  {
    FindPointwise(b2.loans, (l: Loan) => l.id == loanId, b.loans, (l: Loan) => l.id == loanId);
  }

  lemma MoveIndexKept(a: Account, a2: Account, moveId: Id)
    requires |a2.moves| == |a.moves|
    requires forall j :: 0 <= j < |a.moves| ==> a2.moves[j].id == a.moves[j].id
    ensures MoveIndex(a2, moveId) == MoveIndex(a, moveId)
  {
    FindPointwise(a2.moves, (m: Move) => m.id == moveId, a.moves, (m: Move) => m.id == moveId);
  }
}
