/**
 * The User schema: walletAddress required, unique and lower-cased,
 * username trimmed, bio at most 500 characters, isCreator false by
 * default, and a createdAt timestamp.
 */
module UserModel {
  import opened Common
  import opened Text
  import opened Store

  datatype User = User(
    walletAddress: string,
    username: Option<string>,
    bio: Option<string>,
    avatar: Option<string>,
    isCreator: bool,
    createdAt: int)

  /** The `maxlength` of bio. */
  const BioMaxLength := 500

  /** The `findOne({ walletAddress })` filter. */
  function HasWallet(w: string): User -> bool
  {
    (u: User) => u.walletAddress == w
  }

  /** The `trim` setter on an optional string. */
  function TrimOpt(s: Option<string>): (r: Option<string>)
    ensures r.Some? <==> s.Some?
    ensures r.Some? ==> r.value == Trim(s.value) && Trim(r.value) == r.value
  {
    match s
    case None => None
    case Some(v) => TrimIdempotent(v); Some(Trim(v))
  }

  /** The `lowercase` setter on walletAddress and the `trim` setter on username. */
  function Normalize(u: User): (r: User)
    ensures IsLower(r.walletAddress)
    ensures r == u.(walletAddress := r.walletAddress, username := r.username)
    ensures r.username.Some? ==> Trim(r.username.value) == r.username.value
  {
    u.(walletAddress := Lower(u.walletAddress), username := TrimOpt(u.username))
  }

  /** Schema validation: walletAddress non-empty and bio within its maximum length. */
  predicate Validates(u: User)
  {
    u.walletAddress != "" && (u.bio.Some? ==> |u.bio.value| <= BioMaxLength)
  }

  predicate WellFormed(u: User)
  {
    && Validates(u) && IsLower(u.walletAddress)
    && (u.username.Some? ==> Trim(u.username.value) == u.username.value)
  }

  /** The normalizing setters leave a well-formed record as it is. */
  lemma NormalizeWellFormed(u: User)
    requires WellFormed(u)
    ensures Normalize(u) == u
  {
  }

  /** After the setters, the schema accepts a user exactly when it has a
      wallet and its bio, if any, is within the maximum length. */
  lemma SchemaAccepts(u: User)
    ensures WellFormed(Normalize(u)) <==> u.walletAddress != "" && (u.bio.Some? ==> |u.bio.value| <= BioMaxLength)
  {
  }

  predicate UniqueWallets(docs: seq<User>)
  {
    forall i, j :: 0 <= i < j < |docs| ==> docs[i].walletAddress != docs[j].walletAddress
  }

  predicate ValidStore(st: Snapshot<User>)
  {
    && UniqueWallets(st.docs)
    && (forall i :: 0 <= i < |st.docs| ==> WellFormed(st.docs[i]) && st.docs[i].createdAt < st.clock)
  }

  ghost predicate Valid(c: Collection<User>)
    reads c
  {
    ValidStore(c.State())
  }

  /** `User.create(d)`: setters, the createdAt stamp, validation, the unique index. */
  function CreateSpec(st: Snapshot<User>, d: User): (r: (DbResult<User>, Snapshot<User>))
    ensures ValidStore(st) ==> ValidStore(r.1)
    ensures r.0.Rejected? ==> r.1 == st
    ensures r.0.Stored? ==> r.0.doc == Normalize(d).(createdAt := st.clock)
    ensures r.0.Stored? ==> r.1 == Snapshot(st.docs + [r.0.doc], st.clock + 1)
  {
    var n := Normalize(d).(createdAt := st.clock);
    if !Validates(n) then (Rejected(ValidationFailed), st)
    else if FirstMatch(st.docs, HasWallet(n.walletAddress)).Some? then (Rejected(DuplicateKey), st)
    else (Stored(n), Snapshot(st.docs + [n], st.clock + 1))
  }

  /** `doc.save()` after assigning `d` to the document at `i`. */
  function SaveSpec(st: Snapshot<User>, i: nat, d: User): (r: (DbResult<User>, Snapshot<User>))
    requires i < |st.docs|
    ensures ValidStore(st) && d.createdAt == st.docs[i].createdAt ==> ValidStore(r.1)
    ensures r.0.Rejected? ==> r.1 == st
    ensures r.0.Stored? ==> r.0.doc == Normalize(d)
    ensures r.0.Stored? ==> r.1 == Snapshot(st.docs[i := r.0.doc], st.clock)
  {
    var n := Normalize(d);
    if !Validates(n) then (Rejected(ValidationFailed), st)
    else if exists j :: 0 <= j < |st.docs| && j != i && st.docs[j].walletAddress == n.walletAddress then
      (Rejected(DuplicateKey), st)
    else (Stored(n), Snapshot(st.docs[i := n], st.clock))
  }

  /** An accepted save stores the normalized record at `i` and changes nothing else. */
  lemma SaveAccepted(st: Snapshot<User>, i: nat, d: User)
    requires i < |st.docs| && SaveSpec(st, i, d).0.Stored?
    ensures SaveSpec(st, i, d) == (Stored(Normalize(d)), Snapshot(st.docs[i := Normalize(d)], st.clock))
  {
  }

  /** An accepted create appends the normalized record stamped with the clock. */
  lemma CreateAccepted(st: Snapshot<User>, d: User)
    requires CreateSpec(st, d).0.Stored?
    ensures var n := Normalize(d).(createdAt := st.clock);
      CreateSpec(st, d) == (Stored(n), Snapshot(st.docs + [n], st.clock + 1))
  {
  }

  method Create(c: Collection<User>, d: User) returns (r: DbResult<User>)
    requires Valid(c)
    modifies c
    ensures Valid(c)
    ensures (r, c.State()) == CreateSpec(old(c.State()), d)
  {
    var n := Normalize(d).(createdAt := c.clock);
    if !Validates(n) {
      return Rejected(ValidationFailed);
    }
    var clash := c.FindOne(HasWallet(n.walletAddress));
    if clash.Some? {
      return Rejected(DuplicateKey);
    }
    c.Insert(n);
    r := Stored(n);
  }

  method Save(c: Collection<User>, i: nat, d: User) returns (r: DbResult<User>)
    requires Valid(c) && i < |c.docs| && d.createdAt == c.docs[i].createdAt
    modifies c
    ensures Valid(c)
    ensures (r, c.State()) == SaveSpec(old(c.State()), i, d)
  {
    var n := Normalize(d);
    if !Validates(n) {
      return Rejected(ValidationFailed);
    }
    var j := 0;
    while j < |c.docs|
      invariant 0 <= j <= |c.docs|
      invariant forall k :: 0 <= k < j && k != i ==> c.docs[k].walletAddress != n.walletAddress
    {
      if j != i && c.docs[j].walletAddress == n.walletAddress {
        return Rejected(DuplicateKey);
      }
      j := j + 1;
    }
    c.Replace(i, n);
    r := Stored(n);
  }
}
