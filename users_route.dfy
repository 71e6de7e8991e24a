/**
 * `GET /api/users` and `POST /api/users`.
 *
 * GET with a walletAddress returns the user stored under its lower-cased
 * form, or 404; without one it returns every user. POST upserts the
 * profile for a wallet: an existing user takes a truthy username or
 * avatar and any given bio; a new user is created with isCreator false.
 */
module UsersRoute {
  import opened Common
  import opened Text
  import opened Store
  import opened UserModel

  // ---------------------------------------------------------------------
  // GET
  // ---------------------------------------------------------------------

  /** A GET answers with one user or with all of them. */
  datatype UsersReply = One(user: User) | All(users: seq<User>)

  const UserNotFoundText := "User not found"

  /** The response of one GET; `walletAddress` is the query parameter, None when absent. */
  function Get(st: Snapshot<User>, walletAddress: Option<string>): (r: Response<UsersReply>)
    ensures r.Err? <==>
      && StrTruthy(walletAddress)
      && forall j :: 0 <= j < |st.docs| ==> st.docs[j].walletAddress != Lower(walletAddress.value)
    ensures r.Err? ==> r == Err(404, Message(UserNotFoundText))
    ensures r.Ok? && r.body.One? ==>
      StrTruthy(walletAddress) && r.body.user in st.docs && r.body.user.walletAddress == Lower(walletAddress.value)
  {
    if StrTruthy(walletAddress) then
      match FirstMatch(st.docs, HasWallet(Lower(walletAddress.value)))
      case None => Err(404, Message(UserNotFoundText))
      case Some(i) => Ok(One(st.docs[i]))
    else Ok(All(st.docs))
  }

  method HandleGet(db: Collection<User>, walletAddress: Option<string>) returns (resp: Response<UsersReply>)
    ensures resp == Get(db.State(), walletAddress)
  {
    if StrTruthy(walletAddress) {
      var found := db.FindOne(HasWallet(Lower(walletAddress.value)));
      if found.None? {
        return Err(404, Message(UserNotFoundText));
      }
      return Ok(One(db.docs[found.value]));
    }
    return Ok(All(db.docs));
  }

  /** The lookup ignores the case of the wallet: a stored user whose wallet
      equals the parameter up to case is the one returned. */
  lemma GetFindsIgnoringCase(st: Snapshot<User>, walletAddress: string, i: nat)
    requires ValidStore(st) && walletAddress != ""
    requires i < |st.docs| && EqualsIgnoringCase(st.docs[i].walletAddress, walletAddress)
    ensures Get(st, Some(walletAddress)) == Ok(One(st.docs[i]))
  {
    var w := Lower(walletAddress);
    assert st.docs[i].walletAddress == w;
    assert forall j :: 0 <= j < i ==> !HasWallet(w)(st.docs[j]);
    FirstMatchAt(st.docs, HasWallet(w), i);
  }

  /** Without a stored wallet equal to the parameter up to case, GET answers 404. */
  lemma GetNotFound(st: Snapshot<User>, walletAddress: string)
    requires ValidStore(st) && walletAddress != ""
    requires forall j :: 0 <= j < |st.docs| ==> !EqualsIgnoringCase(st.docs[j].walletAddress, walletAddress)
    ensures Get(st, Some(walletAddress)) == Err(404, Message("User not found"))
  {
    var w := Lower(walletAddress);
    assert forall j :: 0 <= j < |st.docs| ==> !HasWallet(w)(st.docs[j]);
  }

  /** Without a parameter (or with an empty one) GET lists every user. */
  lemma GetAll(st: Snapshot<User>, walletAddress: Option<string>)
    requires !StrTruthy(walletAddress)
    ensures Get(st, walletAddress) == Ok(All(st.docs))
  {
  }

  // ---------------------------------------------------------------------
  // POST
  // ---------------------------------------------------------------------

  /** A profile request body; None for a field that is absent. */
  datatype UserBody = UserBody(
    walletAddress: Option<string>,
    username: Option<string>,
    bio: Option<string>,
    avatar: Option<string>)

  const WalletRequiredText := "Wallet address is required"

  /** The existing user after the handler's assignments. */
  function Updated(u: User, b: UserBody): (r: User)
    ensures r.walletAddress == u.walletAddress && r.isCreator == u.isCreator && r.createdAt == u.createdAt
    ensures r.username == (if StrTruthy(b.username) then b.username else u.username)
    ensures r.bio == (if b.bio.Some? then b.bio else u.bio)
    ensures r.avatar == (if StrTruthy(b.avatar) then b.avatar else u.avatar)
  {
    u.(username := OptStrOr(b.username, u.username),
       bio := if b.bio.Some? then b.bio else u.bio,
       avatar := OptStrOr(b.avatar, u.avatar))
  }

  /** The user the handler creates when none has the wallet. */
  function Fresh(b: UserBody): User
    requires StrTruthy(b.walletAddress)
  {
    User(Lower(b.walletAddress.value), b.username, b.bio, b.avatar, false, 0)
  }

  /** The response and the new collection contents of one POST. */
  function Post(st: Snapshot<User>, b: UserBody): (r: (Response<User>, Snapshot<User>))
    ensures r.0.Err? ==> r.1 == st
    ensures r.0.Ok? ==> StrTruthy(b.walletAddress) && r.0.body in r.1.docs
    ensures r.0.Ok? ==> r.0.body.walletAddress == Lower(b.walletAddress.value)
  {
    if !StrTruthy(b.walletAddress) then (Err(400, Message(WalletRequiredText)), st)
    else
      match FirstMatch(st.docs, HasWallet(Lower(b.walletAddress.value)))
      case Some(i) =>
        var (r, st') := SaveSpec(st, i, Updated(st.docs[i], b));
        assert r.Stored? ==> st'.docs[i] == r.doc;
        (Respond(r), st')
      case None =>
        var (r, st') := CreateSpec(st, Fresh(b));
        (Respond(r), st')
  }

  method HandlePost(db: Collection<User>, b: UserBody) returns (resp: Response<User>)
    requires Valid(db)
    modifies db
    ensures Valid(db)
    ensures (resp, db.State()) == Post(old(db.State()), b)
  {
    if !StrTruthy(b.walletAddress) {
      return Err(400, Message(WalletRequiredText));
    }
    var found := db.FindOne(HasWallet(Lower(b.walletAddress.value)));
    if found.Some? {
      var user := db.docs[found.value];
      if StrTruthy(b.username) { user := user.(username := b.username); }
      if b.bio.Some? { user := user.(bio := b.bio); }
      if StrTruthy(b.avatar) { user := user.(avatar := b.avatar); }
      var r := Save(db, found.value, user);
      resp := Respond(r);
    } else {
      var r := Create(db, User(Lower(b.walletAddress.value), b.username, b.bio, b.avatar, false, 0));
      resp := Respond(r);
    }
  }

  /** A falsy walletAddress gives 400 and changes nothing. */
  lemma PostMissingWallet(st: Snapshot<User>, b: UserBody)
    requires !StrTruthy(b.walletAddress)
    ensures Post(st, b) == (Err(400, Message("Wallet address is required")), st)
  {
  }

  /** A bio longer than 500 characters is refused with 500 and changes nothing. */
  lemma PostLongBioRejected(st: Snapshot<User>, b: UserBody)
    requires StrTruthy(b.walletAddress) && b.bio.Some? && |b.bio.value| > BioMaxLength
    ensures Post(st, b) == (Err(500, Store(ValidationFailed)), st)
  {
    var w := Lower(b.walletAddress.value);
    match FirstMatch(st.docs, HasWallet(w))
    case Some(i) =>
      assert !Validates(Normalize(Updated(st.docs[i], b)));
    case None =>
      assert !Validates(Normalize(Fresh(b)).(createdAt := st.clock));
  }

  /** With a wallet and an acceptable bio the write succeeds and leaves
      exactly one user for the lower-cased wallet, the one returned. */
  lemma PostUpsertsOneUser(st: Snapshot<User>, b: UserBody)
    requires ValidStore(st) && StrTruthy(b.walletAddress)
    requires b.bio.Some? ==> |b.bio.value| <= BioMaxLength
    ensures var (resp, st') := Post(st, b);
      && ValidStore(st')
      && resp.Ok?
      && resp.body.walletAddress == Lower(b.walletAddress.value)
      && resp.body in st'.docs
      && (forall j :: 0 <= j < |st'.docs| && st'.docs[j].walletAddress == resp.body.walletAddress ==>
            st'.docs[j] == resp.body)
  {
    var w := Lower(b.walletAddress.value);
    match FirstMatch(st.docs, HasWallet(w))
    case Some(i) =>
      var d := Updated(st.docs[i], b);
      var n := Normalize(d);
      assert WellFormed(st.docs[i]);
      assert n.walletAddress == w && Validates(n);
      assert forall j :: 0 <= j < |st.docs| && j != i ==> st.docs[j].walletAddress != w;
      assert SaveSpec(st, i, d) == (Stored(n), Snapshot(st.docs[i := n], st.clock));
      assert st.docs[i := n][i] == n;
    case None =>
      var d := Fresh(b);
      var n := Normalize(d).(createdAt := st.clock);
      LowerIdempotent(b.walletAddress.value);
      assert n.walletAddress == w && Validates(n);
      assert CreateSpec(st, d) == (Stored(n), Snapshot(st.docs + [n], st.clock + 1));
      assert (st.docs + [n])[|st.docs|] == n;
  }

  /** POST never grants creator status: a user it creates has isCreator false
      and every stored user keeps its isCreator flag. */
  lemma PostNeverGrantsCreator(st: Snapshot<User>, b: UserBody)
    requires ValidStore(st)
    ensures var st' := Post(st, b).1;
      && |st.docs| <= |st'.docs|
      && (forall j :: 0 <= j < |st.docs| ==> st'.docs[j].isCreator == st.docs[j].isCreator)
      && (forall j :: |st.docs| <= j < |st'.docs| ==> !st'.docs[j].isCreator)
  {
    if StrTruthy(b.walletAddress) {
      match FirstMatch(st.docs, HasWallet(Lower(b.walletAddress.value)))
      case Some(i) =>
        var d := Updated(st.docs[i], b);
        if SaveSpec(st, i, d).0.Stored? {
          SaveAccepted(st, i, d);
        }
      case None =>
        if CreateSpec(st, Fresh(b)).0.Stored? {
          CreateAccepted(st, Fresh(b));
        }
    }
  }
}
