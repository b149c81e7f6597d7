# Bookkeeping aggregate: a Dafny model

This project models the core of a personal-finance backend. Each user
document (`Usuario`) owns an ordered list of books (`libros`). Each book owns
ordered `accounts` and `loans`, and each account owns ordered `moves`. Nothing
is ever removed: deleting sets `deleted_at`, and reads hide deleted entries.
Every controller request does the following:

1. It loads the acting user inside `session.withTransaction`.
2. It walks the tree by identifier. The first level that fails decides the
   message ('The user doesn't exist', 'Book not found', 'Account not found',
   'Loan not found', 'Move not found').
3. It applies one mutation: append, overwrite fields, or soft-delete.
4. It saves the whole user document. The pre-save hooks re-stamp `updated_at`
   on every embedded document.
5. It answers with the live entries of the touched collection, annotated with
   their owners' identifiers. Moves are also filtered to the current month.
   Loans are also filtered by a component-wise end-date test.

Documents are immutable datatypes and requests are pure functions. The clock
(`Clock.Now`: an instant plus the current year and month), fresh identifiers,
the verified Google identity and JWTs are all parameters.

Modules:
- `Seqs`: the first-match scan and filter-then-map.
- `MoveModel`, `LoanModel`, `AccountModel`, `BookModel`, `UserModel`: the five
  schemas, their hooks, soft delete and toJSON.
- `Hierarchy`: the store, lookups by identifier, the well-formedness invariant,
  and "nothing else changes" predicates.
- `Visibility`: the read filters and projections.
- `Transaction`: the request protocol: resolve the user, run one unit of work,
  then commit or keep the old store. Every modelled exception is thrown before
  the save, so a failed request writes nothing.
- `BooksController`, `AccountsController`, `LoansController`,
  `MovesController`, `AuthController`: the endpoints.
- `Laws`: properties that relate several requests.
- `Findings`: concrete witnesses of two source defects.

Each controller operation `Op` comes in two parts. `OpWork` is the unit of work
on the loaded user, and it carries the detailed contract. `Op` is the
store-level request. Both rows are listed below.

The move controller treats every account as embedding a `moves` array, but the
account schema declares no such path (see Findings). The move operations are therefore given
twice:
- `MovesController.*AsWritten` models the code as it stands.
- `MovesController.Create`/`Read`/`Update`/`Destroy` model accounts that embed
  their moves, which the rest of the model uses.

## Model

| member | source | states |
|---|---|---|
| Seqs.Find | controllers/books.js:99 | The result is the first index whose element satisfies the predicate, and none exactly when no element does (findIndex; DocumentArray#id scans the same way). |
| Seqs.Project | controllers/books.js:24 | Filter-then-map: the result is no longer than the input, every kept element's image is in it, and everything in it is the image of a kept element. |
| Seqs.ProjectNone | controllers/books.js:24 | When no element passes the filter, the answer is empty. |
| Seqs.ProjectAppend | controllers/books.js:24 | Filtering a concatenation gives the concatenation of the filtered parts, so answers keep the stored order. |
| Seqs.FindPointwise | controllers/books.js:99 | Two scans whose predicates agree position by position find the same index. |
| MoveModel.New | models/move.js:4-44 | A new move has the given identifier and fields, no deletion stamp, and created_at = updated_at = now. |
| MoveModel.PreSave | models/move.js:47-50 | The save hook sets updated_at to now and changes nothing else. |
| MoveModel.SoftDelete | models/move.js:53-56 | deleted_at becomes now, so the move is no longer live, and its own save sets updated_at to now; its identifier, fields and created_at are kept. |
| MoveModel.SoftDeleteRestamps | models/move.js:53-56 | Deleting twice is the same as deleting once at the later time. |
| MoveModel.ToJson | models/move.js:59-63 | uid is the document identifier and the renaming loses nothing: FromJson inverts it. |
| LoanModel.New | models/loan.js:4-41 | A new loan has the given fields (cuentaId optional, null by default), no deletion stamp, and both stamps now. |
| LoanModel.PreSave | models/loan.js:44-51 | The save hook sets updated_at to now and changes nothing else. |
| LoanModel.SoftDeleteAsWritten | models/loan.js:54-57 | `new Date.now()` throws before deleted_at is assigned, so soft delete always throws. |
| LoanModel.SoftDelete | models/loan.js:54-57 | The corrected soft delete: deleted_at and updated_at become now and the loan's identifier and fields are kept. |
| LoanModel.SoftDeleteRestamps | models/loan.js:54-57 | Deleting twice is the same as deleting once at the later time. |
| LoanModel.ToJson | models/loan.js:60-64 | uid is the document identifier and FromJson inverts the renaming. |
| AccountModel.New | models/account.js:4-25 | A new account has the given nombre and saldo, no moves, no deletion stamp, and both stamps now. |
| AccountModel.MovesPropertyAsWritten | models/account.js:4-25 | The schema declares no `moves` path, so `cuenta.moves` is always undefined. |
| AccountModel.PreSave | models/account.js:28-31 | The save hook sets updated_at to now and changes nothing else. |
| AccountModel.SavedNew | models/account.js:28-31 | An account created in a request is left unchanged by that request's save. |
| AccountModel.SoftDelete | models/account.js:34-37 | deleted_at and updated_at become now; the identifier, fields, moves and created_at are kept. |
| AccountModel.SoftDeleteRestamps | models/account.js:34-37 | Deleting twice is the same as deleting once at the later time. |
| AccountModel.ToJson | models/account.js:40-44 | uid is the document identifier and FromJson inverts the renaming. |
| BookModel.New | models/libro.js:6-25 | A new book has the given nombre, no accounts, no loans, no deletion stamp, and both stamps now. |
| BookModel.PreSave | models/libro.js:28-31 | The save hook sets updated_at to now and changes nothing else. |
| BookModel.SavedNew | models/libro.js:28-31 | A book created in a request is left unchanged by that request's save. |
| BookModel.SoftDelete | models/libro.js:34-37 | deleted_at and updated_at become now; the identifier, nombre, accounts, loans and created_at are kept. |
| BookModel.SoftDeleteRestamps | models/libro.js:34-37 | Deleting twice is the same as deleting once at the later time. |
| BookModel.ToJson | models/libro.js:40-44 | uid is the document identifier and FromJson inverts the renaming. |
| UserModel.New | models/usuario.js:5-24 | A user inserted with only an email has no books, no deletion stamp, and both stamps now. |
| UserModel.PreSave | models/usuario.js:27-30 | The save hook sets updated_at to now and changes nothing else. |
| UserModel.SoftDelete | models/usuario.js:33-36 | deleted_at and updated_at become now; the identifier, email and created_at are kept, and every book is kept as the save leaves it, re-stamped at every level and otherwise unchanged. |
| UserModel.ToJson | models/usuario.js:38-42 | uid is the document identifier and FromJson inverts the renaming. |
| UserModel.Save | models/usuario.js:27-30 | Saving the root changes only updated_at, at every level. The user's, each book's, loan's, account's and move's identifiers, fields, created_at and deleted_at are kept, and so are all collection lengths. |
| BookModel.Saved | models/libro.js:28-31 | Saving a book's root re-stamps only updated_at on the book, its loans, its accounts and their moves. Everything else is kept. |
| AccountModel.Saved | models/account.js:28-31 | Saving an account's root re-stamps only updated_at on the account and its moves. Identifier, name, balance and the number of moves are kept. |
| UserModel.SaveTwice | models/usuario.js:27-30 | Saving twice is the same as saving once at the later time. |
| Hierarchy.UserIndex | controllers/moves.js:25-34 | A user is found by identifier, or the lookup reports that no user has it. |
| Hierarchy.EmailIndex | controllers/auth.js:32 | The lookup finds a user with that email, or reports that no user has it. |
| Hierarchy.BookIndex | controllers/moves.js:36 | It finds the first book with the identifier, deleted or not; none exactly when no book has it. |
| Hierarchy.AccountIndex | controllers/moves.js:47 | It finds the first account with the identifier, deleted or not; none exactly when no account has it. |
| Hierarchy.LoanIndex | controllers/loans.js:205 | It finds the first loan with the identifier, deleted or not; none exactly when no loan has it. |
| Hierarchy.MoveIndex | controllers/moves.js:260 | It finds the first move with the identifier, deleted or not; none exactly when no move has it. |
| Hierarchy.SaveKeepsWf | models/usuario.js:27-30 | Saving keeps identifiers unique at every level. |
| Hierarchy.ReplaceUserKeepsWf | models/usuario.js:6-10 | Committing a well-formed user document with the same identifier and email keeps user identifiers and emails unique across the store. |
| Hierarchy.BookIndexKept | controllers/books.js:155 | A book lookup gives the same answer after any change that keeps every book's identifier in place. |
| Hierarchy.AccountIndexKept | controllers/accounts.js:203 | An account lookup gives the same answer after any change that keeps every account's identifier in place. |
| Hierarchy.LoanIndexKept | controllers/loans.js:205 | A loan lookup gives the same answer after any change that keeps every loan's identifier in place. |
| Hierarchy.MoveIndexKept | controllers/moves.js:370 | A move lookup gives the same answer after any change that keeps every move's identifier in place. |
| Visibility.InCurrentMonthIsExact | controllers/moves.js:64-67 | A move is in the window exactly when its date is today's year and month; a move without a date never is. |
| Visibility.EndsNotBeforeIsStricter | controllers/loans.js:53-56 | Every loan the component-wise test keeps has not ended yet. It wrongly drops exactly the loans that end in a later year but in a lower-numbered month. |
| Visibility.DecemberHidesJanuaryLoan | controllers/loans.js:129-132 | In December 2026, a loan ending January 2027 has not ended but is not shown. |
| Visibility.MoveViews | controllers/moves.js:64-73 | A move is listed exactly when it is live and dated this month. Each entry carries the book id, the account id, and uid = move id. |
| Visibility.LoanViews | controllers/loans.js:129-137 | A loan is listed exactly when it is live and passes the end-date test. Each entry carries the book id and uid = loan id. |
| Visibility.AccountViews | controllers/accounts.js:54-58 | An account is listed exactly when it is live. Each entry carries the book id and uid = account id. |
| Visibility.BookJsons | controllers/books.js:24 | A book's JSON is listed exactly when the book is live. |
| Visibility.MoveViewsSnoc | controllers/moves.js:58-73 | Appending a move adds its entry at the end of the answer exactly when it is shown. |
| Visibility.LoanViewsSnoc | controllers/loans.js:47-61 | Appending a loan adds its entry at the end of the answer exactly when it is shown. |
| Visibility.AccountViewsSnoc | controllers/accounts.js:48-58 | Appending an account adds its entry at the end of the answer exactly when it is live. |
| Visibility.BookJsonsSnoc | controllers/books.js:20-24 | Appending a book adds its JSON at the end of the answer exactly when it is live. |
| Transaction.Run | controllers/moves.js:13-97 | The request protocol. An unknown user gets 'The user doesn't exist' and the store is unchanged. An early answer keeps the store. A throw gets the operation's generic failure and keeps the store. A commit replaces only that user's document. No request changes another user's document or the number of users. When a unit of work commits only successful replies, a failed request leaves the store unchanged. |
| BooksController.CreateWork | controllers/books.js:6-43 | One book named nombre is appended and the other books are only re-stamped. The answer is the live books in order, which ends with the new book. |
| BooksController.Create | controllers/books.js:12-17 | The request fails exactly when the user is unknown, and then changes nothing. |
| BooksController.ReadWork | controllers/books.js:46-80 | The answer is the live books and nothing is written. |
| BooksController.Read | controllers/books.js:46-80 | The store is unchanged; the request fails exactly when the user is unknown. |
| BooksController.UpdateWork | controllers/books.js:83-135 | The first book with the identifier, even a deleted one, is renamed and everything else is only re-stamped. No match gives 'Book not found'. |
| BooksController.Update | controllers/books.js:83-135 | A failed update changes nothing. |
| BooksController.DestroyWork | controllers/books.js:139-195 | The matched book stays in libros, with deleted_at set to now, and is absent from the answer. Nothing else changes but the stamps. |
| BooksController.Destroy | controllers/books.js:139-195 | A failed delete changes nothing. |
| AccountsController.CreateWork | controllers/accounts.js:13-82 | Checks run book first. On success `{nombre, saldo}` is appended as the last account of that book only. The answer is the previous live accounts plus the new one. |
| AccountsController.Create | controllers/accounts.js:13-82 | A failed create changes nothing. |
| AccountsController.ReadWork | controllers/accounts.js:94-157 | 'Book not found', or the book's live accounts annotated; never a write. |
| AccountsController.Read | controllers/accounts.js:94-157 | The store is unchanged. |
| AccountsController.UpdateWork | controllers/accounts.js:168-249 | Book and then account lookups decide the error. The matched account, deleted or not, gets only the new nombre and saldo, and every other account and loan is only re-stamped. |
| AccountsController.Update | controllers/accounts.js:168-249 | A failed update changes nothing. |
| AccountsController.DestroyWork | controllers/accounts.js:259-339 | The number of accounts is kept, only the target gets deleted_at = now, and it is absent from the answer. |
| AccountsController.Destroy | controllers/accounts.js:259-339 | A failed delete changes nothing. |
| LoansController.CreateWork | controllers/loans.js:13-85 | One loan is appended at the end of the book's loans; accounts and other books are only re-stamped. The answer gains the new loan exactly when it passes the window. |
| LoansController.Create | controllers/loans.js:13-85 | A failed create changes nothing. |
| LoansController.ReadWork | controllers/loans.js:94-161 | 'Book not found', or the shown loans annotated with the book id and uid; never a write. |
| LoansController.Read | controllers/loans.js:94-161 | The store is unchanged. |
| LoansController.UpdateWork | controllers/loans.js:170-259 | The matched loan's six client fields are overwritten while its identifier and deletion stamp are kept. 'Loan not found' on no match. |
| LoansController.Update | controllers/loans.js:170-259 | A failed update changes nothing. |
| LoansController.DestroyAsWrittenWork | controllers/loans.js:269-353 | A missing book or loan gets its message. A found loan makes soft delete throw. |
| LoansController.DestroyAsWritten | controllers/loans.js:342-347 | Every loan delete fails and leaves the store unchanged. |
| LoansController.DestroyWork | controllers/loans.js:304-337 | Corrected delete: the loan stays, marked deleted, and is absent from the answer. |
| LoansController.Destroy | controllers/loans.js:269-353 | A failed delete changes nothing. |
| MovesController.CreateWork | controllers/moves.js:28-81 | Checks run book, then account. One move is appended at the end of the target account only; everything else is only re-stamped. The answer gains the new move exactly when it is shown. |
| MovesController.Create | controllers/moves.js:13-97 | A failed create changes nothing. |
| MovesController.GatherMoves | controllers/moves.js:146-158 | The reduce keeps what was gathered so far. It contains every shown move of every account, deleted accounts included, and nothing else. |
| MovesController.GatherIsConcat | controllers/moves.js:146-158 | The reduce equals the in-order concatenation of each account's shown moves. |
| MovesController.ReadWork | controllers/moves.js:144-180 | With no cuentaId, the concatenation over all accounts. With one, 'Account not found' or that account's shown moves. Never a write. |
| MovesController.Read | controllers/moves.js:106-205 | The store is unchanged. |
| MovesController.UpdateWork | controllers/moves.js:238-276 | Per-level errors including 'Move not found'. Only the six client fields of the matched move change; its identifier and deletion stamp are kept. |
| MovesController.Update | controllers/moves.js:214-315 | A failed update changes nothing. |
| MovesController.DestroyWork | controllers/moves.js:349-395 | The number of moves is kept, only the target is marked deleted, and it is absent from the answer. |
| MovesController.Destroy | controllers/moves.js:325-419 | A failed delete changes nothing. |
| MovesController.CreateAsWrittenWork | controllers/moves.js:36-58 | Book and account errors as in the code. A found account throws at `cuenta.moves.push`. |
| MovesController.CreateAsWritten | controllers/moves.js:84-92 | Every move create fails and leaves the store unchanged. |
| MovesController.ReadAsWrittenWork | controllers/moves.js:144-180 | Read-all answers (with no moves) only for a book without accounts and otherwise throws. An explicit found account throws. |
| MovesController.ReadAsWritten | controllers/moves.js:106-205 | The store is unchanged and any successful answer lists no move. |
| MovesController.UpdateAsWrittenWork | controllers/moves.js:238-260 | A found account throws at `cuenta.moves.id`, so 'Move not found' is unreachable. |
| MovesController.UpdateAsWritten | controllers/moves.js:302-310 | Every move update fails and leaves the store unchanged. |
| MovesController.DestroyAsWrittenWork | controllers/moves.js:349-370 | A found account throws at `cuenta.moves.id`. |
| MovesController.DestroyAsWritten | controllers/moves.js:406-414 | Every move delete fails and leaves the store unchanged. |
| AuthController.EnsureDefaultBook | controllers/auth.js:91-103 | 'My first book' is added and saved exactly when libros is empty; otherwise the user comes back unchanged. |
| AuthController.DeletedBooksGetNoDefault | controllers/auth.js:93-98 | A user whose books are all deleted gets no default book and signs in with an empty book list. |
| AuthController.EnsureDefaultBookKeepsWf | controllers/auth.js:93-97 | Adding the default book keeps identifiers unique. |
| AuthController.Upsert | controllers/auth.js:25-29 | An existing email, even a deleted user's, writes nothing; otherwise exactly one user with that email is appended. Either way the email is then found. |
| AuthController.GoogleAuth | controllers/auth.js:7-68 | An invalid token gets "The user hasn't a valid google account" and writes nothing. A valid one reuses the user with that email or creates exactly one. The answer is 'Login successful', the user's live books and a token for that user. |
| AuthController.SecondLoginReuses | controllers/auth.js:25-35 | A second sign-in with the same identity finds the same user and writes nothing. |
| AuthController.GoogleAuthKeepsWf | models/usuario.js:6-10 | Sign-in keeps user identifiers and emails unique, given an unused fresh identifier. |
| AuthController.KnownEmailKeepsWf | controllers/auth.js:32-35 | Signing in with an email already stored keeps the store invariant. |
| AuthController.NewEmailKeepsWf | controllers/auth.js:25-29 | Signing in with a new email appends a well-formed user and keeps the store invariant, given an unused fresh identifier. |
| AuthController.RenewToken | controllers/auth.js:70-89 | 'User not found' exactly when the uid is unknown. Otherwise the answer is 'Token renewed' with the user's email and live books. Nothing is written. |
| Laws.BookCreateKeepsWf | controllers/books.js:20 | A created book with an unused identifier keeps identifiers unique. |
| Laws.BookUpdateKeepsWf | controllers/books.js:110 | Renaming a book keeps identifiers unique. |
| Laws.BookDestroyKeepsWf | controllers/books.js:167 | Deleting a book keeps identifiers unique. |
| Laws.ReplaceBookKeepsWf | models/libro.js:11-12 | Replacing a book by a well-formed one with the same identifier keeps the user well formed. |
| Laws.ReplaceAccountKeepsWf | models/libro.js:11 | Replacing an account by a well-formed one with the same identifier keeps the book well formed. |
| Laws.AccountCreateKeepsWf | controllers/accounts.js:48 | A created account with an unused identifier keeps identifiers unique. |
| Laws.AccountChangesKeepWf | controllers/accounts.js:214-215 | Updating or deleting an account keeps identifiers unique. |
| Laws.LoanCreateKeepsWf | controllers/loans.js:47 | A created loan with an unused identifier keeps identifiers unique. |
| Laws.LoanChangesKeepWf | controllers/loans.js:216-221 | Updating or deleting a loan keeps identifiers unique. |
| Laws.MoveCreateKeepsWf | controllers/moves.js:58 | A created move with an unused identifier keeps identifiers unique. |
| Laws.MoveChangesKeepWf | controllers/moves.js:270-276 | Updating or deleting a move keeps identifiers unique. |
| Laws.MoveCreateKeepsStoreWf | controllers/moves.js:58 | A move create with an identifier unused in the store keeps the whole store well formed. |
| Laws.BookDestroyTwice | controllers/books.js:155-167 | A deleted book is still found, so deleting it again succeeds. The later stamp wins and created_at is kept. |
| Laws.DeletedAccountUpdateStaysHidden | controllers/accounts.js:203-221 | Updating a deleted account succeeds, yet no account with its identifier appears in the answer. |
| Laws.DestroyedMoveLeavesAnswer | controllers/moves.js:380-395 | With unique move ids, no move with the deleted move's identifier appears in the answer. |
| Laws.AccountCreateThenRead | controllers/accounts.js:129-133 | Reading right after a create returns exactly the create's answer, which lists the new account. |
| Laws.LoanCreateThenRead | controllers/loans.js:129-137 | Reading right after a create returns exactly the create's answer, which lists the new loan exactly when it passes the window. |
| Laws.MoveCreateThenRead | controllers/moves.js:171-180 | Reading the account right after a create returns exactly the create's answer, which lists the new move exactly when it is dated this month. |
| Findings.MoveCreateNeedsMovesPath | controllers/moves.js:58 | On that store, creating a move as written fails with 'Create failed' and writes nothing. With embedded moves, the same request stores the move. |
| Findings.LoanDeleteNeverDeletes | models/loan.js:55 | On that store, deleting the live loan as written fails with 'Delete failed' and the loan stays live. The corrected delete marks it deleted. |

## Left out

- Express routing and express-validator checks are not modelled; required fields are not re-checked.
- The route wiring is not modelled, and two defects in it are noted here only:
  - routes/loans.js:6 binds the loan endpoints to the moves controller.
  - routes/auth.js:6 imports `crearUsuario`, which controllers/auth.js does not export.
- Mongoose's save-time required validators are not modelled, because every create and update here supplies every required field.
- JWT signing and verification, and Google ID-token verification, are foreign libraries.
  - A token is the uid it names.
  - The verified identity is an `Option` input. helpers/google-verify-token.js turns every failure into null.
- Sessions, `withTransaction`, connections and storage faults are not modelled.
  - A throw comes only from the modelled exceptions (the missing `moves` path and `new Date.now()`).
  - Each of these throws before `usuario.save()`, so a failed request writes nothing. That is why no request is partly applied in the model, not the transaction.
- The book, account, loan and move endpoints load the user with `Usuario.findById(uid)` without `.session(session)` (controllers/books.js:11, controllers/accounts.js:26, controllers/loans.js:25, controllers/moves.js:25). Their `usuario.save()` (controllers/books.js:21, controllers/accounts.js:51, controllers/loans.js:50, controllers/moves.js:61) then runs outside the transaction. An abort would not undo it. This is not executed, and it is not modelled, because no modelled exception comes after a save. Only googleAuth attaches the session (controllers/auth.js:28, 32).
- AuthController.GoogleAuth: its 'Login unsuccessful' reply is not produced. Only a storage fault, or a failure of the foreign JWT signer (controllers/auth.js:41), can reach that catch, and neither is modelled.
- Transaction.Run: a thrown exception is modelled as keeping the old store. This holds only because no modelled exception follows a save; a storage fault after a save is not modelled.
- JS `Date` is not modelled. Parsing, time zones and `getMonth`/`getFullYear` in local time are left out.
  - Dates are abstract (year, month 0-11) pairs.
  - A move without `fecha` is never in the month window, since an Invalid Date compares unequal.
- `cantidad` and `saldo` are integers, not IEEE doubles. No arithmetic is done on them.
- The clock is read once per request: one `Now` stamps every document the request touches.
- `__v`, the version key, is not modelled.
- The un-awaited subdocument `save()` inside each `softDelete`, and `libro.save({ suppressWarning: true })`, add nothing observable beyond the root save.
- controllers/project.js is not part of this model; it is a separate portfolio module with file uploads. sockets/sockets.js is not part of this model either; it only logs.
- Fresh identifiers are inputs. Uniqueness is proved only under the stated freshness preconditions.
- AuthController.SecondLoginReuses: it is stated for two consecutive sign-ins, not for an arbitrary interleaving of other requests.
- Hierarchy.UserIndex: no first-match clause; identifiers are unique under the store invariant, and `findById` is not a scan.

## Findings

| source | as written | input that shows it | evidently intended | confidence | as-written member | corrected member |
|---|---|---|---|---|---|---|
| models/account.js:4-25 | The account schema declares no `moves` path, so `cuenta.moves` is undefined. Every move endpoint that reaches an existing account throws (controllers/moves.js:58, 147, 171, 260, 370) and ends in its generic failure. The not-found answers, and a read-all on a book without accounts, still answer normally. | Any existing account: creating a move in account 3 of book 2 answers 'Create failed' and stores nothing. | Accounts embed a `moves` array of move subdocuments. | not executed; high (plain property access on an undeclared path) | MovesController.CreateAsWritten, Findings.MoveCreateNeedsMovesPath | MovesController.Create |
| models/loan.js:55 | `new Date.now()` parses as `new (Date.now)()`. That throws a TypeError, because `Date.now` is not a constructor, before deleted_at is set, so loan delete always answers 'Delete failed'. | Any existing loan: deleting loan 4 of book 2 answers 'Delete failed' and the loan stays live. | `new Date()`, as in the other four schemas. | not executed; high (a TypeError by the language's definition) | LoanModel.SoftDeleteAsWritten, LoansController.DestroyAsWritten, Findings.LoanDeleteNeverDeletes | LoanModel.SoftDelete, LoansController.Destroy |
