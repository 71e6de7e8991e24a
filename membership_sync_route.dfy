/**
 * `POST /api/memberships/sync`: find-or-create by membershipId. Only
 * membershipId and creator are required. An existing record takes the
 * truthy incoming fields (isRecurring and totalMembers whenever they are
 * given) and keeps its creator; a new record gets defaults for what is
 * missing, among them the name "Membership #<id>".
 */
module MembershipSyncRoute {
  import opened Common
  import opened Text
  import opened Store
  import opened MembershipModel
  import opened MembershipsRoute

  /** The sync gate: membershipId and creator truthy. */
  predicate HasSyncFields(b: MembershipBody)
  {
    IntTruthy(b.membershipId) && StrTruthy(b.creator)
  }

  /** The existing record after the handler's assignments. */
  function Merged(m: Membership, b: MembershipBody): (r: Membership)
    ensures r.membershipId == m.membershipId && r.creator == m.creator
    ensures r.isActive == m.isActive && r.createdAt == m.createdAt
    ensures r.name == (if StrTruthy(b.name) then b.name.value else m.name)
    ensures r.description == (if StrTruthy(b.description) then b.description.value else m.description)
    ensures r.price == (if RealTruthy(b.price) then b.price.value else m.price)
    ensures r.expiryDuration == (if IntTruthy(b.expiryDuration) then b.expiryDuration else m.expiryDuration)
    ensures r.coverImage == (if StrTruthy(b.coverImage) then b.coverImage else m.coverImage)
    ensures r.metadataURI == (if StrTruthy(b.metadataURI) then b.metadataURI else m.metadataURI)
    ensures r.category == (if StrTruthy(b.category) then b.category else m.category)
    ensures r.isRecurring == (if b.isRecurring.Some? then b.isRecurring.value else m.isRecurring)
    ensures r.totalMembers == (if b.totalMembers.Some? then b.totalMembers.value else m.totalMembers)
  {
    m.(name := StrOr(b.name, m.name),
       description := StrOr(b.description, m.description),
       price := RealOr(b.price, m.price),
       isRecurring := if b.isRecurring.Some? then b.isRecurring.value else m.isRecurring,
       expiryDuration := OptIntOr(b.expiryDuration, m.expiryDuration),
       coverImage := OptStrOr(b.coverImage, m.coverImage),
       metadataURI := OptStrOr(b.metadataURI, m.metadataURI),
       category := OptStrOr(b.category, m.category),
       totalMembers := if b.totalMembers.Some? then b.totalMembers.value else m.totalMembers)
  }

  /** The name a new record gets when the body carries none: "Membership #<id>". */
  function DefaultName(id: int): (s: string)
    ensures |s| > 12 && s[..12] == "Membership #" && s[12..] == IntToString(id)
  {
    "Membership #" + IntToString(id)
  }

  /** The record the handler creates when none has the id. */
  function Created(b: MembershipBody): (r: Membership)
    requires HasSyncFields(b)
    ensures r.membershipId == b.membershipId.value && r.creator == Lower(b.creator.value)
    ensures r.name == (if StrTruthy(b.name) then b.name.value else DefaultName(b.membershipId.value))
    ensures r.description == (if StrTruthy(b.description) then b.description.value else "")
    ensures r.price == (if RealTruthy(b.price) then b.price.value else 0.0)
    ensures r.isRecurring == BoolTruthy(b.isRecurring)
    ensures r.expiryDuration == b.expiryDuration && r.coverImage == b.coverImage
    ensures r.metadataURI == b.metadataURI && r.category == b.category
    ensures r.isActive && r.totalMembers == (if IntTruthy(b.totalMembers) then b.totalMembers.value else 0)
  {
    var id := b.membershipId.value;
    Membership(id, Lower(b.creator.value), StrOr(b.name, DefaultName(id)), StrOr(b.description, ""),
               RealOr(b.price, 0.0), BoolTruthy(b.isRecurring), b.expiryDuration, b.coverImage,
               b.metadataURI, b.category, true, IntOr(b.totalMembers, 0), 0)
  }

  /** The response and the new collection contents of one sync. */
  function Sync(st: Snapshot<Membership>, b: MembershipBody): (r: (Response<Membership>, Snapshot<Membership>))
    ensures r.0.Err? ==> r.1 == st
    ensures r.0.Ok? ==> HasSyncFields(b) && r.0.body in r.1.docs && r.0.body.membershipId == b.membershipId.value
  {
    if !HasSyncFields(b) then (MissingFields(), st)
    else
      match FirstMatch(st.docs, HasId(b.membershipId.value))
      case Some(i) =>
        var (r, st') := SaveSpec(st, i, Merged(st.docs[i], b));
        assert r.Stored? ==> st'.docs[i] == r.doc;
        (Respond(r), st')
      case None =>
        var (r, st') := CreateSpec(st, Created(b));
        (Respond(r), st')
  }

  method HandleSync(db: Collection<Membership>, b: MembershipBody) returns (resp: Response<Membership>)
    requires Valid(db)
    modifies db
    ensures Valid(db)
    ensures (resp, db.State()) == Sync(old(db.State()), b)
  {
    if !IntTruthy(b.membershipId) || !StrTruthy(b.creator) {
      return MissingFields();
    }
    var found := db.FindOne(HasId(b.membershipId.value));
    if found.Some? {
      var membership := db.docs[found.value];
      membership := membership.(name := StrOr(b.name, membership.name));
      membership := membership.(description := StrOr(b.description, membership.description));
      membership := membership.(price := RealOr(b.price, membership.price));
      if b.isRecurring.Some? { membership := membership.(isRecurring := b.isRecurring.value); }
      membership := membership.(expiryDuration := OptIntOr(b.expiryDuration, membership.expiryDuration));
      membership := membership.(coverImage := OptStrOr(b.coverImage, membership.coverImage));
      membership := membership.(metadataURI := OptStrOr(b.metadataURI, membership.metadataURI));
      membership := membership.(category := OptStrOr(b.category, membership.category));
      if b.totalMembers.Some? { membership := membership.(totalMembers := b.totalMembers.value); }
      assert membership == Merged(db.docs[found.value], b);
      var r := Save(db, found.value, membership);
      resp := Respond(r);
    } else {
      var r := Create(db, Created(b));
      resp := Respond(r);
    }
  }

  // ---------------------------------------------------------------------
  // Properties
  // ---------------------------------------------------------------------

  /** A falsy membershipId or creator gives 400 and changes nothing. */
  lemma SyncMissingFields(st: Snapshot<Membership>, b: MembershipBody)
    requires !HasSyncFields(b)
    ensures Sync(st, b) == (Err(400, Message("Missing required fields")), st)
  {
  }

  /** Every body that passes the membership POST gate also passes the sync gate. */
  lemma PostGateImpliesSyncGate(b: MembershipBody)
    requires HasRequiredFields(b)
    ensures HasSyncFields(b)
  {
  }

  /** On an existing id, a successful sync keeps the record's place, id,
      creator, active flag and creation stamp, and takes the incoming fields
      by the handler's rules. */
  lemma SyncUpdatesExisting(st: Snapshot<Membership>, b: MembershipBody, i: nat)
    requires ValidStore(st) && HasSyncFields(b)
    requires i < |st.docs| && st.docs[i].membershipId == b.membershipId.value
    requires Sync(st, b).0.Ok?
    ensures var (resp, st') := Sync(st, b);
      var m := st.docs[i];
      && st'.clock == st.clock
      && st'.docs == st.docs[i := resp.body]
      && resp.body.membershipId == m.membershipId
      && resp.body.creator == m.creator
      && resp.body.isActive == m.isActive
      && resp.body.createdAt == m.createdAt
      && resp.body.name == Trim(if StrTruthy(b.name) then b.name.value else m.name)
      && resp.body.description == (if StrTruthy(b.description) then b.description.value else m.description)
      && resp.body.price == (if RealTruthy(b.price) then b.price.value else m.price)
      && resp.body.expiryDuration == (if IntTruthy(b.expiryDuration) then b.expiryDuration else m.expiryDuration)
      && resp.body.coverImage == (if StrTruthy(b.coverImage) then b.coverImage else m.coverImage)
      && resp.body.metadataURI == (if StrTruthy(b.metadataURI) then b.metadataURI else m.metadataURI)
      && resp.body.category == (if StrTruthy(b.category) then b.category else m.category)
      && resp.body.isRecurring == (if b.isRecurring.Some? then b.isRecurring.value else m.isRecurring)
      && resp.body.totalMembers == (if b.totalMembers.Some? then b.totalMembers.value else m.totalMembers)
  {
    var id := b.membershipId.value;
    var m := st.docs[i];
    assert HasId(id)(m);
    assert FirstMatch(st.docs, HasId(id)) == Some(i) by {
      assert forall j :: 0 <= j < i ==> st.docs[j].membershipId != id;
      FirstMatchAt(st.docs, HasId(id), i);
    }
    var d := Merged(m, b);
    var sv := SaveSpec(st, i, d);
    assert Sync(st, b) == (Respond(sv.0), sv.1);
    SaveAccepted(st, i, d);
    var n := Normalize(d);
    assert IsLower(m.creator);
    assert n.creator == m.creator;
  }

  /** On a new id, a sync with a description appends one active record with
      the defaults filled in; the name defaults to "Membership #<id>". */
  lemma SyncCreatesMissing(st: Snapshot<Membership>, b: MembershipBody)
    requires ValidStore(st) && HasSyncFields(b) && StrTruthy(b.description)
    requires forall j :: 0 <= j < |st.docs| ==> st.docs[j].membershipId != b.membershipId.value
    requires Trim(StrOr(b.name, DefaultName(b.membershipId.value))) != ""
    ensures var (resp, st') := Sync(st, b);
      && resp.Ok?
      && st' == Snapshot(st.docs + [resp.body], st.clock + 1)
      && resp.body.membershipId == b.membershipId.value
      && resp.body.creator == Lower(b.creator.value)
      && resp.body.name == Trim(if StrTruthy(b.name) then b.name.value else DefaultName(b.membershipId.value))
      && resp.body.description == b.description.value
      && resp.body.price == (if RealTruthy(b.price) then b.price.value else 0.0)
      && resp.body.isRecurring == BoolTruthy(b.isRecurring)
      && resp.body.expiryDuration == b.expiryDuration
      && resp.body.coverImage == b.coverImage
      && resp.body.metadataURI == b.metadataURI
      && resp.body.category == b.category
      && resp.body.totalMembers == (if IntTruthy(b.totalMembers) then b.totalMembers.value else 0)
      && resp.body.isActive
      && resp.body.createdAt == st.clock
  {
    var id := b.membershipId.value;
    assert FirstMatch(st.docs, HasId(id)).None? by {
      assert forall j :: 0 <= j < |st.docs| ==> !HasId(id)(st.docs[j]);
    }
    var d := Created(b);
    assert Validates(Normalize(d));
    CreateStores(st, d);
    CreateAccepted(st, d);
  }

  /** On a new id, a sync without a description is refused: the handler's
      empty-string default does not satisfy the required description. */
  lemma SyncCreateWithoutDescription(st: Snapshot<Membership>, b: MembershipBody)
    requires HasSyncFields(b) && !StrTruthy(b.description)
    requires forall j :: 0 <= j < |st.docs| ==> st.docs[j].membershipId != b.membershipId.value
    ensures Sync(st, b) == (Err(500, Store(ValidationFailed)), st)
  {
    var id := b.membershipId.value;
    assert FirstMatch(st.docs, HasId(id)).None? by {
      assert forall j :: 0 <= j < |st.docs| ==> !HasId(id)(st.docs[j]);
    }
    assert !Validates(Normalize(Created(b)).(createdAt := st.clock));
  }

  /** Syncing keeps the collection invariant: one record per id among them. */
  lemma SyncKeepsValid(st: Snapshot<Membership>, b: MembershipBody)
    requires ValidStore(st)
    ensures ValidStore(Sync(st, b).1)
  {
    if HasSyncFields(b) {
      match FirstMatch(st.docs, HasId(b.membershipId.value))
      case Some(k) =>
        var d := Merged(st.docs[k], b);
        assert Sync(st, b).1 == SaveSpec(st, k, d).1;
      case None =>
        assert Sync(st, b).1 == CreateSpec(st, Created(b)).1;
    }
  }

  /** A sync never moves a record nor changes the id or creator it holds. */
  lemma SyncKeepsIdAndCreator(st: Snapshot<Membership>, b: MembershipBody, i: nat)
    requires ValidStore(st) && i < |st.docs|
    ensures var st' := Sync(st, b).1;
      && i < |st'.docs|
      && st'.docs[i].membershipId == st.docs[i].membershipId
      && st'.docs[i].creator == st.docs[i].creator
  {
    if HasSyncFields(b) {
      match FirstMatch(st.docs, HasId(b.membershipId.value))
      case Some(k) =>
        var d := Merged(st.docs[k], b);
        assert Sync(st, b).1 == SaveSpec(st, k, d).1;
        assert WellFormed(st.docs[k]);
        SaveKeepsIdAndCreator(st, k, d, i);
      case None =>
        assert Sync(st, b).1 == CreateSpec(st, Created(b)).1;
        CreateKeepsOthers(st, Created(b), i);
    }
  }

  /** A sync whose merge reproduces the stored record leaves the collection as it is. */
  lemma SyncFixpoint(st: Snapshot<Membership>, b: MembershipBody, k: nat)
    requires ValidStore(st) && HasSyncFields(b)
    requires FirstMatch(st.docs, HasId(b.membershipId.value)) == Some(k)
    requires Normalize(Merged(st.docs[k], b)) == st.docs[k]
    ensures Sync(st, b).1 == st
  {
    var m := st.docs[k];
    var d := Merged(m, b);
    assert Sync(st, b).1 == SaveSpec(st, k, d).1;
    assert WellFormed(m) && d.membershipId == m.membershipId;
    SaveStores(st, k, d);
    assert st.docs[k := m] == st.docs;
  }

  /** Merging a body into the record an update with that body produced, then
      normalizing, gives that record back. */
  lemma MergeUpdatedIsStable(m0: Membership, b: MembershipBody)
    ensures var m := Normalize(Merged(m0, b));
      Normalize(Merged(m, b)) == m
  {
    var m := Normalize(Merged(m0, b));
    TrimIdempotent(Merged(m0, b).name);
    LowerIdempotent(Merged(m0, b).creator);
  }

  /** Merging a body into the record a create with that body produced, then
      normalizing, gives that record back when its description is not empty. */
  lemma MergeCreatedIsStable(b: MembershipBody, clock: int)
    requires HasSyncFields(b) && StrTruthy(b.description)
    ensures var m := Normalize(Created(b)).(createdAt := clock);
      Normalize(Merged(m, b)) == m
  {
    var c := Created(b);
    TrimIdempotent(c.name);
    LowerIdempotent(c.creator);
  }

  lemma SyncAgainAfterUpdate(st: Snapshot<Membership>, b: MembershipBody, i: nat)
    requires ValidStore(st) && HasSyncFields(b)
    requires FirstMatch(st.docs, HasId(b.membershipId.value)) == Some(i)
    requires SaveSpec(st, i, Merged(st.docs[i], b)).0.Stored?
    ensures var st1 := SaveSpec(st, i, Merged(st.docs[i], b)).1;
      Sync(st1, b).1 == st1
  {
    var d := Merged(st.docs[i], b);
    SaveAccepted(st, i, d);
    assert ValidStore(SaveSpec(st, i, d).1);
    MergedInPlaceIsFixpoint(st, b, i);
  }

  /** The store an update left behind is a fixpoint of the same sync. */
  lemma MergedInPlaceIsFixpoint(st: Snapshot<Membership>, b: MembershipBody, i: nat)
    requires HasSyncFields(b)
    requires FirstMatch(st.docs, HasId(b.membershipId.value)) == Some(i)
    requires ValidStore(Snapshot(st.docs[i := Normalize(Merged(st.docs[i], b))], st.clock))
    ensures var st1 := Snapshot(st.docs[i := Normalize(Merged(st.docs[i], b))], st.clock);
      Sync(st1, b).1 == st1
  {
    var id := b.membershipId.value;
    var m := Normalize(Merged(st.docs[i], b));
    var st1 := Snapshot(st.docs[i := m], st.clock);
    assert st1.docs[i] == m;
    assert Normalize(Merged(m, b)) == m by {
      MergeUpdatedIsStable(st.docs[i], b);
    }
    assert FirstMatch(st1.docs, HasId(id)) == Some(i) by {
      assert HasId(id)(m);
      FirstMatchAfterReplace(st.docs, HasId(id), i, m);
    }
    SyncFixpoint(st1, b, i);
  }

  lemma SyncAgainAfterCreate(st: Snapshot<Membership>, b: MembershipBody)
    requires ValidStore(st) && HasSyncFields(b)
    requires FirstMatch(st.docs, HasId(b.membershipId.value)).None?
    requires CreateSpec(st, Created(b)).0.Stored?
    ensures var st1 := CreateSpec(st, Created(b)).1;
      Sync(st1, b).1 == st1
  {
    var id := b.membershipId.value;
    var d := Created(b);
    var m := Normalize(d).(createdAt := st.clock);
    var st1 := CreateSpec(st, d).1;
    assert ValidStore(st1);
    assert st1.docs == st.docs + [m] && Validates(m) by { CreateAccepted(st, d); }
    var k := |st.docs|;
    assert Normalize(Merged(st1.docs[k], b)) == st1.docs[k] by {
      assert StrTruthy(b.description);
      MergeCreatedIsStable(b, st.clock);
    }
    assert FirstMatch(st1.docs, HasId(id)) == Some(k) by {
      assert forall j :: 0 <= j < k ==> st1.docs[j].membershipId != id;
      FirstMatchAt(st1.docs, HasId(id), k);
    }
    SyncFixpoint(st1, b, k);
  }

  /** Repeating a successful sync with the same body leaves the collection as it is. */
  lemma SyncIdempotent(st: Snapshot<Membership>, b: MembershipBody)
    requires ValidStore(st)
    requires Sync(st, b).0.Ok?
    ensures var st1 := Sync(st, b).1;
      Sync(st1, b).1 == st1
  {
    match FirstMatch(st.docs, HasId(b.membershipId.value))
    case Some(i) =>
      SyncAgainAfterUpdate(st, b, i);
    case None =>
      SyncAgainAfterCreate(st, b);
  }
}
