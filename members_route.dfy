/**
 * `POST /api/members`: the member reconciliation write. The record for
 * (membershipId, lower-cased wallet) is found and re-activated, taking the
 * incoming tokenId and expiresAt only when they are truthy, or created
 * active when there is none. The find and the write are one atomic step.
 */
module MembersRoute {
  import opened Common
  import opened Text
  import opened Store
  import opened MemberModel

  datatype MemberRequest = MemberRequest(
    membershipId: Option<int>,
    walletAddress: Option<string>,
    tokenId: Option<int>,
    expiresAt: Option<int>)

  predicate HasRequiredFields(req: MemberRequest)
  {
    IntTruthy(req.membershipId) && StrTruthy(req.walletAddress)
  }

  /** The lookup key: the membership id and the lower-cased wallet. */
  function RequestKey(req: MemberRequest): MemberKey
    requires HasRequiredFields(req)
  {
    MemberKey(req.membershipId.value, Lower(req.walletAddress.value))
  }

  /** The found record after the handler's assignments. */
  function Reactivated(m: Member, req: MemberRequest): Member
  {
    m.(isActive := true,
       tokenId := OptIntOr(req.tokenId, m.tokenId),
       expiresAt := OptIntOr(req.expiresAt, m.expiresAt))
  }

  /** The record the handler creates when none exists for the key. */
  function Fresh(req: MemberRequest): Member
    requires HasRequiredFields(req)
  {
    Member(req.membershipId.value, Lower(req.walletAddress.value), req.tokenId, 0, req.expiresAt, true)
  }

  /** The response and the new collection contents of one POST. */
  function Post(st: Snapshot<Member>, req: MemberRequest): (r: (Response<Member>, Snapshot<Member>))
    ensures r.0.Err? ==> r.1 == st
    ensures r.0.Ok? ==> HasRequiredFields(req) && r.0.body in r.1.docs
    ensures r.0.Ok? ==> KeyOf(r.0.body) == RequestKey(req) && r.0.body.isActive
  {
    if !HasRequiredFields(req) then (MissingFields(), st)
    else
      match FirstMatch(st.docs, HasKey(RequestKey(req)))
      case Some(i) =>
        var (r, st') := SaveSpec(st, i, Reactivated(st.docs[i], req));
        assert r.Stored? ==> st'.docs[i] == r.doc;
        (Respond(r), st')
      case None =>
        var (r, st') := CreateSpec(st, Fresh(req));
        (Respond(r), st')
  }

  method HandlePost(db: Collection<Member>, req: MemberRequest) returns (resp: Response<Member>)
    requires Valid(db)
    modifies db
    ensures Valid(db)
    ensures (resp, db.State()) == Post(old(db.State()), req)
  {
    if !IntTruthy(req.membershipId) || !StrTruthy(req.walletAddress) {
      return MissingFields();
    }
    var key := MemberKey(req.membershipId.value, Lower(req.walletAddress.value));
    var found := db.FindOne(HasKey(key));
    if found.Some? {
      var member := db.docs[found.value];
      member := member.(isActive := true);
      if IntTruthy(req.tokenId) { member := member.(tokenId := req.tokenId); }
      if IntTruthy(req.expiresAt) { member := member.(expiresAt := req.expiresAt); }
      var r := Save(db, found.value, member);
      resp := Respond(r);
    } else {
      var r := Create(db, Fresh(req));
      resp := Respond(r);
    }
  }

  // ---------------------------------------------------------------------
  // Properties of one call
  // ---------------------------------------------------------------------

  /** A falsy membershipId (0 included) or walletAddress gives 400 and changes nothing. */
  lemma PostMissingFields(st: Snapshot<Member>, req: MemberRequest)
    requires !IntTruthy(req.membershipId) || !StrTruthy(req.walletAddress)
    ensures Post(st, req) == (Err(400, Message("Missing required fields")), st)
  {
  }

  /** With both fields present the write succeeds, leaves exactly one active
      record under (membershipId, lower-cased wallet) and returns it. */
  lemma PostUpsertsOneActiveRecord(st: Snapshot<Member>, req: MemberRequest)
    requires ValidStore(st) && HasRequiredFields(req)
    ensures var (resp, st') := Post(st, req);
      && ValidStore(st')
      && resp.Ok?
      && resp.body.isActive
      && KeyOf(resp.body) == RequestKey(req)
      && IsLower(resp.body.walletAddress)
      && resp.body in st'.docs
      && (forall j :: 0 <= j < |st'.docs| && KeyOf(st'.docs[j]) == RequestKey(req) ==> st'.docs[j] == resp.body)
  {
    var k := RequestKey(req);
    match FirstMatch(st.docs, HasKey(k))
    case Some(i) =>
      var n := Reactivated(st.docs[i], req);
      assert Normalize(n) == n;
      assert forall j :: 0 <= j < |st.docs| && j != i ==> KeyOf(st.docs[j]) != KeyOf(n);
      assert st.docs[i := n][i] == n;
    case None =>
      var n := Normalize(Fresh(req)).(joinedAt := st.clock);
      assert HasKey(k)(n);
  }

  /** On an existing record tokenId and expiresAt are replaced only by truthy
      values; the record keeps its position and its joinedAt. */
  lemma PostUpdatesExisting(st: Snapshot<Member>, req: MemberRequest, i: nat)
    requires ValidStore(st) && HasRequiredFields(req)
    requires i < |st.docs| && KeyOf(st.docs[i]) == RequestKey(req)
    ensures var st' := Post(st, req).1;
      var old_ := st.docs[i];
      && |st'.docs| == |st.docs| && st'.clock == st.clock
      && st'.docs[i].isActive
      && st'.docs[i].tokenId == (if IntTruthy(req.tokenId) then req.tokenId else old_.tokenId)
      && st'.docs[i].expiresAt == (if IntTruthy(req.expiresAt) then req.expiresAt else old_.expiresAt)
      && st'.docs[i].joinedAt == old_.joinedAt
      && KeyOf(st'.docs[i]) == KeyOf(old_)
  {
    var k := RequestKey(req);
    assert HasKey(k)(st.docs[i]);
    FirstMatchAt(st.docs, HasKey(k), i);
    var n := Reactivated(st.docs[i], req);
    assert Normalize(n) == n;
  }

  /** The record a successful write returns carries the request's tokenId and
      expiresAt whenever they are truthy. */
  lemma PostStoresTruthyValues(st: Snapshot<Member>, req: MemberRequest)
    requires HasRequiredFields(req)
    ensures var resp := Post(st, req).0;
      resp.Ok? ==>
        && (IntTruthy(req.tokenId) ==> resp.body.tokenId == req.tokenId)
        && (IntTruthy(req.expiresAt) ==> resp.body.expiresAt == req.expiresAt)
  {
    match FirstMatch(st.docs, HasKey(RequestKey(req)))
    case Some(i) =>
      var n := Reactivated(st.docs[i], req);
      assert Normalize(n).tokenId == n.tokenId && Normalize(n).expiresAt == n.expiresAt;
    case None =>
      var n := Fresh(req);
      assert Normalize(n).tokenId == n.tokenId && Normalize(n).expiresAt == n.expiresAt;
  }

  /** Without a record for the key, one is appended carrying the given tokenId
      and expiresAt (possibly absent), isActive true and joinedAt now. */
  lemma PostCreatesMissing(st: Snapshot<Member>, req: MemberRequest)
    requires ValidStore(st) && HasRequiredFields(req)
    requires forall j :: 0 <= j < |st.docs| ==> KeyOf(st.docs[j]) != RequestKey(req)
    ensures Post(st, req).1 == Snapshot(
      st.docs + [Member(req.membershipId.value, Lower(req.walletAddress.value),
                        req.tokenId, st.clock, req.expiresAt, true)],
      st.clock + 1)
  {
    var k := RequestKey(req);
    assert forall j :: 0 <= j < |st.docs| ==> !HasKey(k)(st.docs[j]);
    LowerIdempotent(req.walletAddress.value);
  }

  /** Records under any other key keep their place and their contents. */
  lemma PostKeepsOtherKeys(st: Snapshot<Member>, req: MemberRequest, j: nat)
    requires ValidStore(st) && j < |st.docs|
    requires !HasRequiredFields(req) || KeyOf(st.docs[j]) != RequestKey(req)
    ensures var st' := Post(st, req).1;
      j < |st'.docs| && st'.docs[j] == st.docs[j]
  {
  }

  // ---------------------------------------------------------------------
  // Properties of repeated calls
  // ---------------------------------------------------------------------

  /** Two identical successive calls leave the same collection as one call. */
  lemma PostIdempotent(st: Snapshot<Member>, req: MemberRequest)
    requires ValidStore(st)
    ensures var st1 := Post(st, req).1;
      Post(st1, req).1 == st1
  {
    if HasRequiredFields(req) {
      var k := RequestKey(req);
      PostUpsertsOneActiveRecord(st, req);
      var st1 := Post(st, req).1;
      var i :| 0 <= i < |st1.docs| && KeyOf(st1.docs[i]) == k;
      PostUpdatesExisting(st1, req, i);
      assert HasKey(k)(st1.docs[i]);
      FirstMatchAt(st1.docs, HasKey(k), i);
      var m := st1.docs[i];
      assert m.isActive;
      PostStoresTruthyValues(st, req);
      assert Reactivated(m, req) == m;
      SaveUnchanged(st1, i);
    }
  }

  /** Two successive writes for one key with different truthy tokenIds leave
      a single active record holding the later tokenId. */
  lemma PostLastWriteWins(st: Snapshot<Member>, first: MemberRequest, second: MemberRequest)
    requires ValidStore(st) && HasRequiredFields(first) && HasRequiredFields(second)
    requires RequestKey(first) == RequestKey(second)
    requires IntTruthy(second.tokenId)
    ensures var st2 := Post(Post(st, first).1, second).1;
      && ValidStore(st2)
      && (exists i :: 0 <= i < |st2.docs| && KeyOf(st2.docs[i]) == RequestKey(second))
      && (forall i :: 0 <= i < |st2.docs| && KeyOf(st2.docs[i]) == RequestKey(second) ==>
            st2.docs[i].tokenId == second.tokenId && st2.docs[i].isActive)
  {
    var k := RequestKey(second);
    PostUpsertsOneActiveRecord(st, first);
    var st1 := Post(st, first).1;
    var i :| 0 <= i < |st1.docs| && KeyOf(st1.docs[i]) == k;
    PostUpdatesExisting(st1, second, i);
    PostUpsertsOneActiveRecord(st1, second);
  }
}
