/** The move endpoints (controllers/moves.js): moves live in an account's `moves`
    array, three levels below the user, and are shown only in their own month.
    The functions without a suffix model the controller over accounts that embed
    their moves; the `AsWritten` ones model it over the account schema as written,
    which declares no `moves` path. */
module MovesController {
  import opened Wrappers
  import opened Clock
  import opened Base
  import opened MoveModel
  import opened AccountModel
  import opened BookModel
  import opened UserModel
  import opened Hierarchy
  import opened Visibility
  import opened Transaction

  const BookMissing := "Book not found"
  const AccountMissing := "Account not found"
  const MoveMissing := "Move not found"
  const MovesRead := "Moves retrieved successfully"

  /** create: push the move onto the account's moves, save, answer with the
      account's shown moves. */
  function CreateWork(u: User, bookId: Id, cuentaId: Id, data: MoveData, newId: Id, now: Now): (w: Work<seq<MoveView>>)
    ensures BookIndex(u, bookId).None? ==> w == Answer(Failed(BookMissing))
    ensures BookIndex(u, bookId).Some? && AccountIndex(u.libros[BookIndex(u, bookId).value], cuentaId).None? ==>
      w == Answer(Failed(AccountMissing))
    ensures BookIndex(u, bookId).Some? && AccountIndex(u.libros[BookIndex(u, bookId).value], cuentaId).Some? ==>
      var i := BookIndex(u, bookId).value;
      var k := AccountIndex(u.libros[i], cuentaId).value;
      var a := u.libros[i].accounts[k];
      var added := MoveModel.New(newId, data, now.instant);
      && w.Commit? && w.reply.Done? && w.reply.message == "Move created" && w.reply.token == Jwt(u.id)
      && BooksKeptBut(u, w.user, i, now.instant)
      && AccountsKeptBut(u.libros[i], w.user.libros[i], k, now.instant)
      && var a2 := w.user.libros[i].accounts[k];
      && a2.id == a.id && a2.nombre == a.nombre && a2.saldo == a.saldo && a2.stamps == Touch(a.stamps, now.instant)
      && |a2.moves| == |a.moves| + 1
      && (forall n :: 0 <= n < |a.moves| ==> a2.moves[n] == MoveModel.PreSave(a.moves[n], now.instant))
      && a2.moves[|a.moves|] == added
      && w.reply.data == MoveViews(a2.moves, bookId, cuentaId, now.period)
      && w.reply.data == MoveViews(a2.moves[..|a.moves|], bookId, cuentaId, now.period)
                         + (if MoveShown(added, now.period) then [MoveView(added, bookId, cuentaId, newId)] else [])
  {
    match BookIndex(u, bookId)
    case None => Answer(Failed(BookMissing))
    case Some(i) =>
      var b := u.libros[i];
      match AccountIndex(b, cuentaId)
      case None => Answer(Failed(AccountMissing))
      case Some(k) =>
        var a := b.accounts[k];
        var added := MoveModel.New(newId, data, now.instant);
        var b1 := b.(accounts := b.accounts[k := a.(moves := a.moves + [added])]);
        var saved := Save(u.(libros := u.libros[i := b1]), now.instant);
        var a2 := saved.libros[i].accounts[k];
        assert a2.moves == a2.moves[..|a.moves|] + [added];
        MoveViewsSnoc(a2.moves[..|a.moves|], added, b.id, a.id, now.period);
        Commit(Done("Move created", MoveViews(a2.moves, b.id, a.id, now.period), Jwt(u.id)), saved)
  }

  function Create(s: Store, uid: Id, bookId: Id, cuentaId: Id, data: MoveData, newId: Id, now: Now): (r: Step<seq<MoveView>>)
    ensures r.reply.Failed? ==> r.store == s
  {
    Run(s, uid, (u: User) => CreateWork(u, bookId, cuentaId, data, newId, now), CreateFailed)
  }

  /** `libro.accounts.reduce((acc, cuenta) => [...acc, ...shown moves of cuenta], acc)`:
      every account contributes, soft-deleted or not. */
  function GatherMoves(accounts: seq<Account>, bookId: Id, today: YearMonth, acc: seq<MoveView>): (r: seq<MoveView>)
    ensures acc <= r
    ensures forall v :: v in r ==> v in acc || exists k :: 0 <= k < |accounts| && v in MoveViews(accounts[k].moves, bookId, accounts[k].id, today)
    ensures forall k, m :: 0 <= k < |accounts| && m in accounts[k].moves && MoveShown(m, today) ==>
              MoveView(m, bookId, accounts[k].id, m.id) in r
    decreases |accounts|
  {
    if |accounts| == 0 then acc
    else
      var acc1 := acc + MoveViews(accounts[0].moves, bookId, accounts[0].id, today);
      var r := GatherMoves(accounts[1..], bookId, today, acc1);
      assert forall k, m :: 0 <= k < |accounts| && m in accounts[k].moves && MoveShown(m, today) ==>
               MoveView(m, bookId, accounts[k].id, m.id) in r by {
        forall k, m | 0 <= k < |accounts| && m in accounts[k].moves && MoveShown(m, today)
          ensures MoveView(m, bookId, accounts[k].id, m.id) in r
        {
          if k == 0 {
            assert MoveView(m, bookId, accounts[k].id, m.id) in acc1;
          } else {
            assert accounts[k] == accounts[1..][k - 1];
          }
        }
      }
      r
  }

  /** The same concatenation, account by account from the front. */
  function ConcatMoves(accounts: seq<Account>, bookId: Id, today: YearMonth): seq<MoveView> {
    if |accounts| == 0 then []
    else MoveViews(accounts[0].moves, bookId, accounts[0].id, today) + ConcatMoves(accounts[1..], bookId, today)
  }

  /** The fold is the in-order concatenation of every account's shown moves. */
  lemma {:induction false} GatherIsConcat(accounts: seq<Account>, bookId: Id, today: YearMonth, acc: seq<MoveView>)
    ensures GatherMoves(accounts, bookId, today, acc) == acc + ConcatMoves(accounts, bookId, today)
    decreases |accounts|
  {
    if |accounts| > 0 {
      var first := MoveViews(accounts[0].moves, bookId, accounts[0].id, today);
      GatherIsConcat(accounts[1..], bookId, today, acc + first);
      assert acc + first + ConcatMoves(accounts[1..], bookId, today) == acc + (first + ConcatMoves(accounts[1..], bookId, today));
    }
  }

  /** read: without cuentaId (null or empty), the shown moves of every account of
      the book; with one, the shown moves of that account. No write either way. */
  function ReadWork(u: User, bookId: Id, cuentaId: Option<Id>, now: Now): (w: Work<seq<MoveView>>)
    ensures w.Answer?
    ensures BookIndex(u, bookId).None? ==> w.reply == Failed(BookMissing)
    ensures BookIndex(u, bookId).Some? && cuentaId.None? ==>
      w.reply == Done(MovesRead, ConcatMoves(u.libros[BookIndex(u, bookId).value].accounts, bookId, now.period), Jwt(u.id))
    ensures BookIndex(u, bookId).Some? && cuentaId.Some? && AccountIndex(u.libros[BookIndex(u, bookId).value], cuentaId.value).None? ==>
      w.reply == Failed(AccountMissing)
    ensures BookIndex(u, bookId).Some? && cuentaId.Some? && AccountIndex(u.libros[BookIndex(u, bookId).value], cuentaId.value).Some? ==>
      var b := u.libros[BookIndex(u, bookId).value];
      w.reply == Done(MovesRead, MoveViews(b.accounts[AccountIndex(b, cuentaId.value).value].moves, bookId, cuentaId.value, now.period), Jwt(u.id))
  {
    match BookIndex(u, bookId)
    case None => Answer(Failed(BookMissing))
    case Some(i) =>
      var b := u.libros[i];
      match cuentaId
      case None =>
        GatherIsConcat(b.accounts, b.id, now.period, []);
        assert [] + ConcatMoves(b.accounts, b.id, now.period) == ConcatMoves(b.accounts, b.id, now.period);
        Answer(Done(MovesRead, GatherMoves(b.accounts, b.id, now.period, []), Jwt(u.id)))
      case Some(accountId) =>
        match AccountIndex(b, accountId)
        case None => Answer(Failed(AccountMissing))
        case Some(k) =>
          var a := b.accounts[k];
          Answer(Done(MovesRead, MoveViews(a.moves, b.id, a.id, now.period), Jwt(u.id)))
  }

  function Read(s: Store, uid: Id, bookId: Id, cuentaId: Option<Id>, now: Now): (r: Step<seq<MoveView>>)
    ensures r.store == s
  {
    Run(s, uid, (u: User) => ReadWork(u, bookId, cuentaId, now), ReadFailed)
  }

  /** update: the matched move's six client fields are overwritten; its identifier
      and stamps other than updated_at are kept. */
  function UpdateWork(u: User, bookId: Id, accountId: Id, moveId: Id, data: MoveData, now: Now): (w: Work<seq<MoveView>>)
    ensures BookIndex(u, bookId).None? ==> w == Answer(Failed(BookMissing))
    ensures BookIndex(u, bookId).Some? && AccountIndex(u.libros[BookIndex(u, bookId).value], accountId).None? ==>
      w == Answer(Failed(AccountMissing))
    ensures BookIndex(u, bookId).Some? && AccountIndex(u.libros[BookIndex(u, bookId).value], accountId).Some? ==>
      var i := BookIndex(u, bookId).value;
      var k := AccountIndex(u.libros[i], accountId).value;
      var a := u.libros[i].accounts[k];
      && (MoveIndex(a, moveId).None? ==> w == Answer(Failed(MoveMissing)))
      && (MoveIndex(a, moveId).Some? ==>
            var n := MoveIndex(a, moveId).value;
            && w.Commit? && w.reply.Done? && w.reply.message == "Move updated successfully"
            && BooksKeptBut(u, w.user, i, now.instant)
            && AccountsKeptBut(u.libros[i], w.user.libros[i], k, now.instant)
            && var a2 := w.user.libros[i].accounts[k];
            && MovesKeptBut(a, a2, n, now.instant)
            && a2.moves[n].id == moveId && a2.moves[n].data == data
            && a2.moves[n].stamps == Touch(a.moves[n].stamps, now.instant)
            && w.reply.data == MoveViews(a2.moves, bookId, accountId, now.period))
  {
    match BookIndex(u, bookId)
    case None => Answer(Failed(BookMissing))
    case Some(i) =>
      var b := u.libros[i];
      match AccountIndex(b, accountId)
      case None => Answer(Failed(AccountMissing))
      case Some(k) =>
        var a := b.accounts[k];
        match MoveIndex(a, moveId)
        case None => Answer(Failed(MoveMissing))
        case Some(n) =>
          var a1 := a.(moves := a.moves[n := a.moves[n].(data := data)]);
          var saved := Save(u.(libros := u.libros[i := b.(accounts := b.accounts[k := a1])]), now.instant);
          Commit(Done("Move updated successfully", MoveViews(saved.libros[i].accounts[k].moves, b.id, a.id, now.period), Jwt(u.id)), saved)
  }

  function Update(s: Store, uid: Id, bookId: Id, accountId: Id, moveId: Id, data: MoveData, now: Now): (r: Step<seq<MoveView>>)
    ensures r.reply.Failed? ==> r.store == s
  {
    Run(s, uid, (u: User) => UpdateWork(u, bookId, accountId, moveId, data, now), UpdateFailed)
  }

  /** destroy: the matched move is soft-deleted; it stays in the account. */
  function DestroyWork(u: User, bookId: Id, accountId: Id, moveId: Id, now: Now): (w: Work<seq<MoveView>>)
    ensures BookIndex(u, bookId).None? ==> w == Answer(Failed(BookMissing))
    ensures BookIndex(u, bookId).Some? && AccountIndex(u.libros[BookIndex(u, bookId).value], accountId).None? ==>
      w == Answer(Failed(AccountMissing))
    ensures BookIndex(u, bookId).Some? && AccountIndex(u.libros[BookIndex(u, bookId).value], accountId).Some? ==>
      var i := BookIndex(u, bookId).value;
      var k := AccountIndex(u.libros[i], accountId).value;
      var a := u.libros[i].accounts[k];
      && (MoveIndex(a, moveId).None? ==> w == Answer(Failed(MoveMissing)))
      && (MoveIndex(a, moveId).Some? ==>
            var n := MoveIndex(a, moveId).value;
            && w.Commit? && w.reply.Done? && w.reply.message == "Move deleted successfully"
            && BooksKeptBut(u, w.user, i, now.instant)
            && AccountsKeptBut(u.libros[i], w.user.libros[i], k, now.instant)
            && var a2 := w.user.libros[i].accounts[k];
            && MovesKeptBut(a, a2, n, now.instant)
            && a2.moves[n] == MoveModel.SoftDelete(a.moves[n], now.instant)
            && w.reply.data == MoveViews(a2.moves, bookId, accountId, now.period)
            && MoveView(a2.moves[n], bookId, accountId, moveId) !in w.reply.data)
  {
    match BookIndex(u, bookId)
    case None => Answer(Failed(BookMissing))
    case Some(i) =>
      var b := u.libros[i];
      match AccountIndex(b, accountId)
      case None => Answer(Failed(AccountMissing))
      case Some(k) =>
        var a := b.accounts[k];
        match MoveIndex(a, moveId)
        case None => Answer(Failed(MoveMissing))
        case Some(n) =>
          var a1 := a.(moves := a.moves[n := MoveModel.SoftDelete(a.moves[n], now.instant)]);
          var saved := Save(u.(libros := u.libros[i := b.(accounts := b.accounts[k := a1])]), now.instant);
          Commit(Done("Move deleted successfully", MoveViews(saved.libros[i].accounts[k].moves, b.id, a.id, now.period), Jwt(u.id)), saved)
  }

  function Destroy(s: Store, uid: Id, bookId: Id, accountId: Id, moveId: Id, now: Now): (r: Step<seq<MoveView>>)
    ensures r.reply.Failed? ==> r.store == s
  {
    Run(s, uid, (u: User) => DestroyWork(u, bookId, accountId, moveId, now), DeleteFailed)
  }

  /** create as written: once the account is found, `cuenta.moves.push` throws. */
  function CreateAsWrittenWork(u: User, bookId: Id, cuentaId: Id, data: MoveData, newId: Id, now: Now): (w: Work<seq<MoveView>>)
    ensures BookIndex(u, bookId).None? ==> w == Answer(Failed(BookMissing))
    ensures BookIndex(u, bookId).Some? && AccountIndex(u.libros[BookIndex(u, bookId).value], cuentaId).None? ==>
      w == Answer(Failed(AccountMissing))
    ensures BookIndex(u, bookId).Some? && AccountIndex(u.libros[BookIndex(u, bookId).value], cuentaId).Some? ==>
      w.Throw?
  {
    match BookIndex(u, bookId)
    case None => Answer(Failed(BookMissing))
    case Some(i) =>
      var b := u.libros[i];
      match AccountIndex(b, cuentaId)
      case None => Answer(Failed(AccountMissing))
      case Some(k) =>
        match AccountModel.MovesPropertyAsWritten(b.accounts[k])
        case None => Throw
  }

  function CreateAsWritten(s: Store, uid: Id, bookId: Id, cuentaId: Id, data: MoveData, newId: Id, now: Now): (r: Step<seq<MoveView>>)
    ensures r.store == s
    ensures r.reply.Failed?
  {
    Run(s, uid, (u: User) => CreateAsWrittenWork(u, bookId, cuentaId, data, newId, now), CreateFailed)
  }

  /** read as written: the reduce throws on the book's first account, so only a
      book without accounts answers, with no moves; an explicit account throws. */
  function ReadAsWrittenWork(u: User, bookId: Id, cuentaId: Option<Id>, now: Now): (w: Work<seq<MoveView>>)
    ensures !w.Commit?
    ensures BookIndex(u, bookId).None? ==> w == Answer(Failed(BookMissing))
    ensures BookIndex(u, bookId).Some? && cuentaId.None? ==>
      if |u.libros[BookIndex(u, bookId).value].accounts| == 0 then w == Answer(Done(MovesRead, [], Jwt(u.id))) else w.Throw?
    ensures BookIndex(u, bookId).Some? && cuentaId.Some? ==>
      if AccountIndex(u.libros[BookIndex(u, bookId).value], cuentaId.value).None? then w == Answer(Failed(AccountMissing)) else w.Throw?
  {
    match BookIndex(u, bookId)
    case None => Answer(Failed(BookMissing))
    case Some(i) =>
      var b := u.libros[i];
      match cuentaId
      case None =>
        if |b.accounts| == 0 then Answer(Done(MovesRead, [], Jwt(u.id)))
        else (match AccountModel.MovesPropertyAsWritten(b.accounts[0])
          case None => Throw)
      case Some(accountId) =>
        match AccountIndex(b, accountId)
        case None => Answer(Failed(AccountMissing))
        case Some(k) =>
          match AccountModel.MovesPropertyAsWritten(b.accounts[k])
          case None => Throw
  }

  function ReadAsWritten(s: Store, uid: Id, bookId: Id, cuentaId: Option<Id>, now: Now): (r: Step<seq<MoveView>>)
    ensures r.store == s
    ensures r.reply.Done? ==> r.reply.data == []
  {
    Run(s, uid, (u: User) => ReadAsWrittenWork(u, bookId, cuentaId, now), ReadFailed)
  }

  /** update as written: once the account is found, `cuenta.moves.id` throws, so
      'Move not found' is never reached. */
  function UpdateAsWrittenWork(u: User, bookId: Id, accountId: Id, moveId: Id, data: MoveData, now: Now): (w: Work<seq<MoveView>>)
    ensures BookIndex(u, bookId).None? ==> w == Answer(Failed(BookMissing))
    ensures BookIndex(u, bookId).Some? && AccountIndex(u.libros[BookIndex(u, bookId).value], accountId).None? ==>
      w == Answer(Failed(AccountMissing))
    ensures BookIndex(u, bookId).Some? && AccountIndex(u.libros[BookIndex(u, bookId).value], accountId).Some? ==>
      w.Throw?
  {
    match BookIndex(u, bookId)
    case None => Answer(Failed(BookMissing))
    case Some(i) =>
      var b := u.libros[i];
      match AccountIndex(b, accountId)
      case None => Answer(Failed(AccountMissing))
      case Some(k) =>
        match AccountModel.MovesPropertyAsWritten(b.accounts[k])
        case None => Throw
  }

  function UpdateAsWritten(s: Store, uid: Id, bookId: Id, accountId: Id, moveId: Id, data: MoveData, now: Now): (r: Step<seq<MoveView>>)
    ensures r.store == s
    ensures r.reply.Failed?
  {
    Run(s, uid, (u: User) => UpdateAsWrittenWork(u, bookId, accountId, moveId, data, now), UpdateFailed)
  }

  /** destroy as written: once the account is found, `cuenta.moves.id` throws. */
  function DestroyAsWrittenWork(u: User, bookId: Id, accountId: Id, moveId: Id, now: Now): (w: Work<seq<MoveView>>)
    ensures BookIndex(u, bookId).None? ==> w == Answer(Failed(BookMissing))
    ensures BookIndex(u, bookId).Some? && AccountIndex(u.libros[BookIndex(u, bookId).value], accountId).None? ==>
      w == Answer(Failed(AccountMissing))
    ensures BookIndex(u, bookId).Some? && AccountIndex(u.libros[BookIndex(u, bookId).value], accountId).Some? ==>
      w.Throw?
  {
    match BookIndex(u, bookId)
    case None => Answer(Failed(BookMissing))
    case Some(i) =>
      var b := u.libros[i];
      match AccountIndex(b, accountId)
      case None => Answer(Failed(AccountMissing))
      case Some(k) =>
        match AccountModel.MovesPropertyAsWritten(b.accounts[k])
        case None => Throw
  }

  function DestroyAsWritten(s: Store, uid: Id, bookId: Id, accountId: Id, moveId: Id, now: Now): (r: Step<seq<MoveView>>)
    ensures r.store == s
    ensures r.reply.Failed?
  {
    Run(s, uid, (u: User) => DestroyAsWrittenWork(u, bookId, accountId, moveId, now), DeleteFailed)
  }
}
