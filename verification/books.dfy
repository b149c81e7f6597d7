/** The book endpoints (controllers/books.js): books live directly in `usuario.libros`
    and are found with findIndex on their identifier. */
module BooksController {
  import opened Clock
  import opened Base
  import opened BookModel
  import opened UserModel
  import opened Hierarchy
  import opened Visibility
  import opened Transaction

  const BookMissing := "Book not found"

  /** create: push `{ nombre }`, save, answer with the live books. */
  function CreateWork(u: User, nombre: string, newId: Id, now: Now): (w: Work<seq<BookJson>>)
    ensures w.Commit? && w.reply.Done? && w.reply.message == "User created" && w.reply.token == Jwt(u.id)
    ensures w.user.id == u.id && w.user.email == u.email && w.user.stamps == Touch(u.stamps, now.instant)
    ensures |w.user.libros| == |u.libros| + 1
    ensures forall j :: 0 <= j < |u.libros| ==> w.user.libros[j] == BookModel.Saved(u.libros[j], now.instant)
    ensures w.user.libros[|u.libros|] == BookModel.New(newId, nombre, now.instant)
    ensures w.reply.data == BookJsons(w.user.libros)
    ensures w.reply.data == BookJsons(w.user.libros[..|u.libros|]) + [BookModel.ToJson(BookModel.New(newId, nombre, now.instant))]
  {
    var added := BookModel.New(newId, nombre, now.instant);
    var saved := Save(u.(libros := u.libros + [added]), now.instant);
    BookModel.SavedNew(newId, nombre, now.instant);
    assert saved.libros == saved.libros[..|u.libros|] + [added];
    BookJsonsSnoc(saved.libros[..|u.libros|], added);
    Commit(Done("User created", BookJsons(saved.libros), Jwt(u.id)), saved)
  }

  function Create(s: Store, uid: Id, nombre: string, newId: Id, now: Now): (r: Step<seq<BookJson>>)
    ensures UserIndex(s, uid).None? <==> r.reply.Failed?
    ensures r.reply.Failed? ==> r.reply.message == UserMissing && r.store == s
  {
    Run(s, uid, (u: User) => CreateWork(u, nombre, newId, now), CreateFailed)
  }

  /** read: the live books, and no write. */
  function ReadWork(u: User): (w: Work<seq<BookJson>>)
    ensures w.Answer? && w.reply.Done? && w.reply.token == Jwt(u.id)
    ensures w.reply.data == BookJsons(u.libros)
  {
    Answer(Done("User details retrieved successfully", BookJsons(u.libros), Jwt(u.id)))
  }

  function Read(s: Store, uid: Id): (r: Step<seq<BookJson>>)
    ensures r.store == s
    ensures UserIndex(s, uid).None? <==> r.reply.Failed?
  {
    Run(s, uid, (u: User) => ReadWork(u), ReadFailed)
  }

  /** update: the first book with the identifier, deleted or not, is renamed. */
  function UpdateWork(u: User, libroId: Id, nuevoNombre: string, now: Now): (w: Work<seq<BookJson>>)
    ensures BookIndex(u, libroId).None? ==> w == Answer(Failed(BookMissing))
    ensures BookIndex(u, libroId).Some? ==>
      var i := BookIndex(u, libroId).value;
      && w.Commit? && w.reply.Done? && w.reply.message == "Book updated successfully"
      && BooksKeptBut(u, w.user, i, now.instant)
      && w.user.libros[i] == BookModel.Saved(u.libros[i], now.instant).(nombre := nuevoNombre)
      && w.reply.data == BookJsons(w.user.libros)
  {
    match BookIndex(u, libroId)
    case None => Answer(Failed(BookMissing))
    case Some(i) =>
      var saved := Save(u.(libros := u.libros[i := u.libros[i].(nombre := nuevoNombre)]), now.instant);
      Commit(Done("Book updated successfully", BookJsons(saved.libros), Jwt(u.id)), saved)
  }

  function Update(s: Store, uid: Id, libroId: Id, nuevoNombre: string, now: Now): (r: Step<seq<BookJson>>)
    ensures r.reply.Failed? ==> r.store == s
  {
    Run(s, uid, (u: User) => UpdateWork(u, libroId, nuevoNombre, now), UpdateFailed)
  }

  /** destroy: the first book with the identifier is soft-deleted, never removed. */
  function DestroyWork(u: User, libroId: Id, now: Now): (w: Work<seq<BookJson>>)
    ensures BookIndex(u, libroId).None? ==> w == Answer(Failed(BookMissing))
    ensures BookIndex(u, libroId).Some? ==>
      var i := BookIndex(u, libroId).value;
      && w.Commit? && w.reply.Done? && w.reply.message == "Book deleted successfully"
      && BooksKeptBut(u, w.user, i, now.instant)
      && w.user.libros[i] == BookModel.Saved(BookModel.SoftDelete(u.libros[i], now.instant), now.instant)
      && w.user.libros[i].stamps.deleted == Wrappers.Some(now.instant)
      && w.reply.data == BookJsons(w.user.libros)
      && BookModel.ToJson(w.user.libros[i]) !in w.reply.data
  {
    match BookIndex(u, libroId)
    case None => Answer(Failed(BookMissing))
    case Some(i) =>
      var saved := Save(u.(libros := u.libros[i := BookModel.SoftDelete(u.libros[i], now.instant)]), now.instant);
      Commit(Done("Book deleted successfully", BookJsons(saved.libros), Jwt(u.id)), saved)
  }

  function Destroy(s: Store, uid: Id, libroId: Id, now: Now): (r: Step<seq<BookJson>>)
    ensures r.reply.Failed? ==> r.store == s
  {
    Run(s, uid, (u: User) => DestroyWork(u, libroId, now), DeleteFailed)
  }
}
