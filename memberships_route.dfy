/**
 * `GET /api/memberships` and `POST /api/memberships`.
 *
 * GET lists the active memberships, newest first, narrowed by the optional
 * `creator` (compared lower-cased), `category` (exact) and `search`
 * (case-insensitive pattern on name or description) parameters. POST
 * creates one membership from a request body whose identifying fields are
 * all truthy; a repeated membershipId is refused by the unique index.
 */
module MembershipsRoute {
  import opened Common
  import opened Text
  import opened Store
  import opened MembershipModel

  // ---------------------------------------------------------------------
  // GET
  // ---------------------------------------------------------------------

  /** The search parameters; None when a parameter is absent. */
  datatype ListParams = ListParams(creator: Option<string>, category: Option<string>, search: Option<string>)

  /** The store query the handler assembles; `isActive: true` is always part of it. */
  datatype Query = Query(creator: Option<string>, category: Option<string>, search: Option<string>)

  /**
   * Whether `m` answers the query for `params`. `regexMatch(pattern, text)`
   * stands for the store's case-insensitive `$regex` test, whose pattern
   * language is not modelled.
   */
  predicate Selected(params: ListParams, regexMatch: (string, string) -> bool, m: Membership)
  {
    && m.isActive
    && (StrTruthy(params.creator) ==> m.creator == Lower(params.creator.value))
    && (StrTruthy(params.category) ==> m.category == params.category)
    && (StrTruthy(params.search) ==>
          regexMatch(params.search.value, m.name) || regexMatch(params.search.value, m.description))
  }

  /** The filter the store applies for an assembled query. */
  function QueryFilter(q: Query, regexMatch: (string, string) -> bool): Membership -> bool
  {
    (m: Membership) =>
      && m.isActive
      && (q.creator.Some? ==> m.creator == q.creator.value)
      && (q.category.Some? ==> m.category == q.category)
      && (q.search.Some? ==> regexMatch(q.search.value, m.name) || regexMatch(q.search.value, m.description))
  }

  function CreatedAt(m: Membership): int
  {
    m.createdAt
  }

  /** The listing GET returns for a collection. */
  function List(st: Snapshot<Membership>, params: ListParams, regexMatch: (string, string) -> bool): (r: seq<Membership>)
    ensures forall k :: 0 <= k < |r| ==> r[k] in st.docs && Selected(params, regexMatch, r[k])
    ensures forall j :: 0 <= j < |st.docs| && Selected(params, regexMatch, st.docs[j]) ==> st.docs[j] in r
  {
    NewestFirst(st.docs, (m: Membership) => Selected(params, regexMatch, m))
  }

  /** The listing holds exactly the selected memberships, newest first. */
  lemma ListIsSelectionNewestFirst(st: Snapshot<Membership>, params: ListParams, regexMatch: (string, string) -> bool)
    requires ValidStore(st)
    ensures var r := List(st, params, regexMatch);
      && (forall i :: 0 <= i < |r| ==> r[i] in st.docs && Selected(params, regexMatch, r[i]))
      && (forall j :: 0 <= j < |st.docs| && Selected(params, regexMatch, st.docs[j]) ==> st.docs[j] in r)
      && DescendingBy(r, CreatedAt)
  {
    NewestFirstDescending(st.docs, (m: Membership) => Selected(params, regexMatch, m), CreatedAt);
  }

  /** On stored memberships the creator filter is a case-insensitive comparison. */
  lemma CreatorFilterIgnoresCase(m: Membership, creator: string)
    requires WellFormed(m)
    ensures m.creator == Lower(creator) <==> EqualsIgnoringCase(m.creator, creator)
  {
  }

  /** A query holding the lower-cased creator, the category and the search
      exactly when each parameter is truthy selects what `Selected` does. */
  lemma QuerySelects(params: ListParams, q: Query, regexMatch: (string, string) -> bool, docs: seq<Membership>)
    requires q.creator == (if StrTruthy(params.creator) then Some(Lower(params.creator.value)) else None)
    requires q.category == (if StrTruthy(params.category) then params.category else None)
    requires q.search == (if StrTruthy(params.search) then params.search else None)
    ensures forall j :: 0 <= j < |docs| ==> QueryFilter(q, regexMatch)(docs[j]) == Selected(params, regexMatch, docs[j])
  {
  }

  method HandleGet(db: Collection<Membership>, params: ListParams, regexMatch: (string, string) -> bool)
    returns (list: seq<Membership>)
    requires Valid(db)
    ensures list == List(db.State(), params, regexMatch)
    ensures forall i :: 0 <= i < |list| ==> list[i] in db.docs && Selected(params, regexMatch, list[i])
    ensures forall j :: 0 <= j < |db.docs| && Selected(params, regexMatch, db.docs[j]) ==> db.docs[j] in list
    ensures DescendingBy(list, CreatedAt)
  {
    var query := Query(None, None, None);
    if StrTruthy(params.creator) {
      query := query.(creator := Some(Lower(params.creator.value)));
    }
    if StrTruthy(params.category) {
      query := query.(category := params.category);
    }
    if StrTruthy(params.search) {
      query := query.(search := params.search);
    }
    QuerySelects(params, query, regexMatch, db.docs);
    list := db.FindNewestFirst(QueryFilter(query, regexMatch));
    NewestFirstSameFilter(db.docs, QueryFilter(query, regexMatch), (m: Membership) => Selected(params, regexMatch, m));
    ListIsSelectionNewestFirst(db.State(), params, regexMatch);
  }

  // ---------------------------------------------------------------------
  // POST
  // ---------------------------------------------------------------------

  /** A membership request body; None for a field that is absent or null. */
  datatype MembershipBody = MembershipBody(
    membershipId: Option<int>,
    creator: Option<string>,
    name: Option<string>,
    description: Option<string>,
    price: Option<real>,
    isRecurring: Option<bool>,
    expiryDuration: Option<int>,
    coverImage: Option<string>,
    metadataURI: Option<string>,
    category: Option<string>,
    totalMembers: Option<int>)

  /** The POST gate: membershipId, creator, name, description and price all truthy. */
  predicate HasRequiredFields(b: MembershipBody)
  {
    IntTruthy(b.membershipId) && StrTruthy(b.creator) && StrTruthy(b.name)
    && StrTruthy(b.description) && RealTruthy(b.price)
  }

  /** The record POST hands to the store. */
  function Draft(b: MembershipBody): Membership
    requires HasRequiredFields(b)
  {
    Membership(b.membershipId.value, Lower(b.creator.value), b.name.value, b.description.value,
               b.price.value, BoolTruthy(b.isRecurring), b.expiryDuration, b.coverImage,
               b.metadataURI, b.category, true, 0, 0)
  }

  /** A body past the gate whose name is not blank validates once normalized. */
  lemma DraftValidates(b: MembershipBody)
    requires HasRequiredFields(b) && Trim(b.name.value) != ""
    ensures Validates(Normalize(Draft(b)))
  {
    assert |Lower(b.creator.value)| == |b.creator.value| > 0;
    LowerIdempotent(b.creator.value);
  }

  /** The response and the new collection contents of one POST. */
  function Post(st: Snapshot<Membership>, b: MembershipBody): (r: (Response<Membership>, Snapshot<Membership>))
    ensures r.0.Err? ==> r.1 == st
    ensures r.0.Ok? ==> HasRequiredFields(b) && r.1 == Snapshot(st.docs + [r.0.body], st.clock + 1)
  {
    if !HasRequiredFields(b) then (MissingFields(), st)
    else
      var (r, st') := CreateSpec(st, Draft(b));
      (Respond(r), st')
  }

  method HandlePost(db: Collection<Membership>, b: MembershipBody) returns (resp: Response<Membership>)
    requires Valid(db)
    modifies db
    ensures Valid(db)
    ensures (resp, db.State()) == Post(old(db.State()), b)
  {
    if !IntTruthy(b.membershipId) || !StrTruthy(b.creator) || !StrTruthy(b.name)
       || !StrTruthy(b.description) || !RealTruthy(b.price) {
      return MissingFields();
    }
    var r := Create(db, Membership(
      b.membershipId.value, Lower(b.creator.value), b.name.value, b.description.value,
      b.price.value, BoolTruthy(b.isRecurring), b.expiryDuration, b.coverImage,
      b.metadataURI, b.category, true, 0, 0));
    resp := Respond(r);
  }

  /** Any falsy identifying field (a price or id of 0 included) gives 400 and changes nothing. */
  lemma PostMissingFields(st: Snapshot<Membership>, b: MembershipBody)
    requires !HasRequiredFields(b)
    ensures Post(st, b) == (Err(400, Message("Missing required fields")), st)
  {
  }

  /** A complete body for a new id whose name is not blank appends one active
      membership with no members, the creator lower-cased and the name trimmed. */
  lemma PostCreates(st: Snapshot<Membership>, b: MembershipBody)
    requires ValidStore(st) && HasRequiredFields(b)
    requires Trim(b.name.value) != ""
    requires forall j :: 0 <= j < |st.docs| ==> st.docs[j].membershipId != b.membershipId.value
    ensures var (resp, st') := Post(st, b);
      && resp.Ok?
      && st' == Snapshot(st.docs + [resp.body], st.clock + 1)
      && resp.body.membershipId == b.membershipId.value
      && resp.body.creator == Lower(b.creator.value)
      && resp.body.name == Trim(b.name.value)
      && resp.body.description == b.description.value
      && resp.body.price == b.price.value
      && resp.body.isRecurring == (b.isRecurring == Some(true))
      && resp.body.isActive && resp.body.totalMembers == 0
      && resp.body.createdAt == st.clock
  {
    var id := b.membershipId.value;
    var d := Draft(b);
    var n := Normalize(d).(createdAt := st.clock);
    assert n.creator == Lower(b.creator.value) && n.name == Trim(b.name.value);
    DraftValidates(b);
    CreateStores(st, d);
    CreateAccepted(st, d);
  }

  /** A complete body for an id already stored is refused with 500 and changes nothing. */
  lemma PostDuplicateId(st: Snapshot<Membership>, b: MembershipBody, i: nat)
    requires HasRequiredFields(b) && Trim(b.name.value) != ""
    requires i < |st.docs| && st.docs[i].membershipId == b.membershipId.value
    ensures Post(st, b) == (Err(500, Store(DuplicateKey)), st)
  {
    DraftValidates(b);
    CreateRejectsDuplicate(st, Draft(b), i);
  }

  /** A name of white space only passes the gate but fails validation once trimmed. */
  lemma PostBlankName(st: Snapshot<Membership>, b: MembershipBody)
    requires HasRequiredFields(b) && Trim(b.name.value) == ""
    ensures Post(st, b) == (Err(500, Store(ValidationFailed)), st)
  {
    var d := Draft(b);
    assert !Validates(Normalize(d).(createdAt := st.clock));
  }

  /** A membership just created is the first entry of a listing by its creator,
      whatever the case of the creator parameter. */
  lemma PostThenListedFirst(st: Snapshot<Membership>, b: MembershipBody, params: ListParams,
                            regexMatch: (string, string) -> bool)
    requires ValidStore(st)
    requires Post(st, b).0.Ok?
    requires params.creator.Some? && EqualsIgnoringCase(params.creator.value, b.creator.value)
    requires params.category.None? && params.search.None?
    ensures var (resp, st') := Post(st, b);
      |List(st', params, regexMatch)| > 0 && List(st', params, regexMatch)[0] == resp.body
  {
    var (resp, st') := Post(st, b);
    var n := resp.body;
    LowerIdempotent(b.creator.value);
    assert st'.docs == st.docs + [n];
    assert st'.docs[..|st'.docs| - 1] == st.docs;
    assert Selected(params, regexMatch, n);
  }
}
