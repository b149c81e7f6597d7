/** The session endpoints (controllers/auth.js): sign-in with a Google identity,
    which creates the user on first sight and guarantees a first book, and token
    renewal. Verifying the Google ID token and signing the JWT are abstract: the
    verified identity arrives as an `Option`, and a token is the uid it names. */
module AuthController {
  import opened Wrappers
  import opened Clock
  import opened Base
  import opened BookModel
  import opened UserModel
  import opened Hierarchy
  import opened Visibility
  import opened Transaction
  import opened Seqs

  /** The fields of a verified Google ID token that the sign-in uses. */
  datatype GoogleUser = GoogleUser(email: string, name: string)

  /** The `data` of a successful sign-in. */
  datatype LoginData = LoginData(email: string, name: string, uid: Id, libros: seq<BookJson>)

  /** The `data` of a renewed token. */
  datatype RenewData = RenewData(email: string, libros: seq<BookJson>)

  const DefaultBookName := "My first book"
  const InvalidGoogle := "The user hasn't a valid google account"
  const UserNotFound := "User not found"

  /** `validarExistenciaLibros`: a user whose `libros` array is literally empty gets
      one book named 'My first book' and is saved; any other user is returned as is,
      even when every one of its books is soft-deleted. */
  function EnsureDefaultBook(u: User, newBookId: Id, now: Time): (r: User)
    ensures |u.libros| == 0 ==>
      && r.id == u.id && r.email == u.email && r.stamps == Touch(u.stamps, now)
      && r.libros == [BookModel.New(newBookId, DefaultBookName, now)]
    ensures |u.libros| != 0 ==> r == u
    ensures |r.libros| > 0
  {
    if |u.libros| == 0 then
      BookModel.SavedNew(newBookId, DefaultBookName, now);
      Save(u.(libros := [BookModel.New(newBookId, DefaultBookName, now)]), now)
    else u
  }

  /** A user whose books are all soft-deleted gets no default book, so the sign-in
      lists no book at all. */
  lemma {:induction false} DeletedBooksGetNoDefault(u: User, newBookId: Id, now: Time)
    requires |u.libros| > 0
    requires forall j :: 0 <= j < |u.libros| ==> !u.libros[j].stamps.Live()
    ensures EnsureDefaultBook(u, newBookId, now) == u
    ensures BookJsons(EnsureDefaultBook(u, newBookId, now).libros) == []
  {
    ProjectNone(u.libros, BookKeep(), BookLabel());
  }

  /** The default book keeps the user's tree well formed. */
  lemma EnsureDefaultBookKeepsWf(u: User, newBookId: Id, now: Time)
    requires UserWf(u)
    ensures UserWf(EnsureDefaultBook(u, newBookId, now))
  {
  }

  /** `Usuario.findOneAndUpdate({ email }, { $setOnInsert: { email } }, { upsert: true })`:
      when some user, deleted or not, has the email nothing is written; otherwise a
      user with that email and the schema defaults is inserted. */
  function Upsert(s: Store, email: string, newUid: Id, now: Time): (r: Store)
    ensures EmailIndex(s, email).Some? ==> r == s
    ensures EmailIndex(s, email).None? ==>
      && |r.users| == |s.users| + 1 && r.users[..|s.users|] == s.users
      && r.users[|s.users|] == UserModel.New(newUid, email, now)
    ensures EmailIndex(r, email).Some?
  {
    if EmailIndex(s, email).Some? then s
    else
      var r := Store(s.users + [UserModel.New(newUid, email, now)]);
      assert r.users[|s.users|].email == email;
      r
  }

  /** googleAuth: an invalid token answers without writing; a valid one upserts the
      user by email, loads the first user with that email, adds the default book if
      needed, and answers with the user's non-deleted books and a token for it. */
  function GoogleAuth(s: Store, google: Option<GoogleUser>, newUid: Id, newBookId: Id, now: Now): (r: Step<LoginData>)
    ensures google.None? ==> r == Step(Failed(InvalidGoogle), s)
    ensures google.Some? && EmailIndex(s, google.value.email).Some? ==>
      var j := EmailIndex(s, google.value.email).value;
      var u := EnsureDefaultBook(s.users[j], newBookId, now.instant);
      && r.store.users == s.users[j := u]
      && r.reply == Done("Login successful", LoginData(google.value.email, google.value.name, s.users[j].id, BookJsons(u.libros)), Jwt(s.users[j].id))
    ensures google.Some? && EmailIndex(s, google.value.email).None? ==>
      && |r.store.users| == |s.users| + 1 && r.store.users[..|s.users|] == s.users
      && var u := r.store.users[|s.users|];
      && u.id == newUid && u.email == google.value.email && u.stamps.Live()
      && u.libros == [BookModel.New(newBookId, DefaultBookName, now.instant)]
      && r.reply == Done("Login successful", LoginData(google.value.email, google.value.name, newUid, BookJsons(u.libros)), Jwt(newUid))
  {
    match google
    case None => Step(Failed(InvalidGoogle), s)
    case Some(g) =>
      var s1 := Upsert(s, g.email, newUid, now.instant);
      var k := EmailIndex(s1, g.email).value;
      var u := EnsureDefaultBook(s1.users[k], newBookId, now.instant);
      var r := Step(Done("Login successful", LoginData(g.email, g.name, u.id, BookJsons(u.libros)), Jwt(u.id)), Store(s1.users[k := u]));
      assert EmailIndex(s, g.email).None? ==> r.store.users[..|s.users|] == s.users by {
        if EmailIndex(s, g.email).None? {
          assert r.store.users[..|s.users|] == s1.users[..|s.users|];
        }
      }
      r
  }

  /** Signing in twice with the same identity reuses the user the first sign-in
      created or found: the store is left as the first sign-in left it, and both
      sign-ins answer with the same uid. */
  lemma {:induction false} SecondLoginReuses(s: Store, g: GoogleUser, newUid: Id, newBookId: Id, now: Now, uid2: Id, bookId2: Id, later: Now)
    ensures var s1 := GoogleAuth(s, Some(g), newUid, newBookId, now).store;
      && EmailIndex(s1, g.email).Some?
      && GoogleAuth(s1, Some(g), uid2, bookId2, later).store == s1
      && GoogleAuth(s1, Some(g), uid2, bookId2, later).reply.Done?
      && GoogleAuth(s1, Some(g), uid2, bookId2, later).reply.data.uid
         == GoogleAuth(s, Some(g), newUid, newBookId, now).reply.data.uid
  {
    var s1 := GoogleAuth(s, Some(g), newUid, newBookId, now).store;
    var j := EmailIndex(s, g.email);
    var idx := if j.Some? then j.value else |s.users|;
    assert idx < |s1.users| && s1.users[idx].email == g.email;
    assert |s1.users[idx].libros| > 0;
    var k := EmailIndex(s1, g.email).value;
    assert k == idx;
  }

  /** Sign-in keeps the store invariant when the fresh user id is unused: an
      existing email is reused, so no second user with that email appears. */
  lemma {:induction false} GoogleAuthKeepsWf(s: Store, google: Option<GoogleUser>, newUid: Id, newBookId: Id, now: Now)
    requires StoreWf(s)
    requires forall i :: 0 <= i < |s.users| ==> s.users[i].id != newUid
    ensures StoreWf(GoogleAuth(s, google, newUid, newBookId, now).store)
  {
    if google.Some? {
      if EmailIndex(s, google.value.email).Some? {
        KnownEmailKeepsWf(s, google.value, newUid, newBookId, now);
      } else {
        NewEmailKeepsWf(s, google.value, newUid, newBookId, now);
      }
    }
  }

  /** The sign-in of a known email replaces that user by itself with a default book. */
  lemma {:induction false} KnownEmailKeepsWf(s: Store, g: GoogleUser, newUid: Id, newBookId: Id, now: Now)
    requires StoreWf(s) && EmailIndex(s, g.email).Some?
    ensures StoreWf(GoogleAuth(s, Some(g), newUid, newBookId, now).store)
  {
    var j := EmailIndex(s, g.email).value;
    EnsureDefaultBookKeepsWf(s.users[j], newBookId, now.instant);
    ReplaceUserKeepsWf(s, j, EnsureDefaultBook(s.users[j], newBookId, now.instant));
  }

  /** The sign-in of a new email appends one well-formed user with a fresh id. */
  lemma {:induction false} NewEmailKeepsWf(s: Store, g: GoogleUser, newUid: Id, newBookId: Id, now: Now)
    requires StoreWf(s) && EmailIndex(s, g.email).None?
    requires forall i :: 0 <= i < |s.users| ==> s.users[i].id != newUid
    ensures StoreWf(GoogleAuth(s, Some(g), newUid, newBookId, now).store)
  {
    var r := GoogleAuth(s, Some(g), newUid, newBookId, now).store;
    var u := r.users[|s.users|];
    assert UserWf(u);
    assert forall i :: 0 <= i < |s.users| ==> r.users[i] == s.users[i] by {
      forall i | 0 <= i < |s.users| ensures r.users[i] == s.users[i] {
        assert r.users[..|s.users|][i] == s.users[i];
      }
    }
  }

  /** renewToken: `Usuario.findById(uid)` outside any transaction; a missing user
      answers 'User not found', a found one (deleted or not) its email and its
      non-deleted books. Nothing is written. */
  function RenewToken(s: Store, uid: Id): (r: Step<RenewData>)
    ensures r.store == s
    ensures UserIndex(s, uid).None? <==> r.reply == Failed(UserNotFound)
    ensures UserIndex(s, uid).Some? ==>
      var u := s.users[UserIndex(s, uid).value];
      && r.reply.Done? && r.reply.message == "Token renewed" && r.reply.token == Jwt(uid)
      && r.reply.data.email == u.email
      && r.reply.data.libros == BookJsons(u.libros)
      && forall b :: BookModel.ToJson(b) in r.reply.data.libros <==> b in u.libros && b.stamps.Live()
  {
    match UserIndex(s, uid)
    case None => Step(Failed(UserNotFound), s)
    case Some(i) =>
      var u := s.users[i];
      Step(Done("Token renewed", RenewData(u.email, BookJsons(u.libros)), Jwt(uid)), s)
  }
}
