/** The request protocol every controller operation follows: resolve the acting user,
    run one unit of work on the loaded aggregate, and either commit the saved
    aggregate or leave the store as it was. Every modelled exception is thrown
    before the aggregate is saved, so a failed request writes nothing. */
module Transaction {
  import opened Wrappers
  import opened Base
  import opened UserModel
  import opened Hierarchy

  /** `generarJWT(uid)`: token signing is abstract; a token stands for the uid it is issued to. */
  datatype Token = Jwt(uid: Id)

  /** The JSON body of a response: `success: true` with message, data and a fresh
      token, or `success: false` with a message only. */
  datatype Reply<T> = Done(message: string, data: T, token: Token) | Failed(message: string)

  /** What a unit of work does with the loaded user: answer without writing (the
      `return res.json(...)` branches), answer after saving the new aggregate, or throw. */
  datatype Work<T> = Answer(reply: Reply<T>) | Commit(reply: Reply<T>, user: User) | Throw

  /** A reply and the store it leaves behind. */
  datatype Step<T> = Step(reply: Reply<T>, store: Store)

  const UserMissing := "The user doesn't exist"
  const CreateFailed := "Create failed"
  const ReadFailed := "Read failed"
  const UpdateFailed := "Update failed"
  const DeleteFailed := "Delete failed"

  /** `Usuario.findById(uid)` and the unit of work, wrapped in `session.withTransaction(...)`.
      A thrown exception is answered with the operation's generic failure message and
      writes nothing, because every exception of a unit of work comes before its save.
      A unit of work that commits only successful replies makes every failed request
      leave the store unchanged; no request changes another user's document or the
      number of users. */
  function Run<T>(s: Store, uid: Id, work: User -> Work<T>, failure: string): (r: Step<T>)
    ensures |r.store.users| == |s.users|
    ensures forall j :: 0 <= j < |s.users| && s.users[j].id != uid ==> r.store.users[j] == s.users[j]
    ensures (forall u: User :: work(u).Commit? ==> work(u).reply.Done?) ==> (r.reply.Failed? ==> r.store == s)
    ensures UserIndex(s, uid).None? ==> r == Step(Failed(UserMissing), s)
    ensures UserIndex(s, uid).Some? ==>
      var i := UserIndex(s, uid).value;
      match work(s.users[i])
      case Answer(reply) => r == Step(reply, s)
      case Throw => r == Step(Failed(failure), s)
      case Commit(reply, u) => r.reply == reply && r.store.users == s.users[i := u]
  {
    match UserIndex(s, uid)
    case None => Step(Failed(UserMissing), s)
    case Some(i) =>
      match work(s.users[i])
      case Answer(reply) => Step(reply, s)
      case Throw => Step(Failed(failure), s)
      case Commit(reply, u) => Step(reply, Store(s.users[i := u]))
  }
}
