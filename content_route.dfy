/**
 * `GET /api/content` and `POST /api/content`.
 *
 * GET lists content newest first, all of it or, when a membershipId
 * parameter is given, the items whose membershipId equals its `parseInt`
 * value; a parameter that parses to NaN makes the store's cast fail.
 * POST creates one item from a body with a truthy membershipId and title,
 * converting the id with `parseInt` and defaulting contentType to text.
 */
module ContentRoute {
  import opened Common
  import opened Text
  import opened Store
  import opened ContentModel

  // ---------------------------------------------------------------------
  // GET
  // ---------------------------------------------------------------------

  function CreatedAt(c: Content): int
  {
    c.createdAt
  }

  /** The response of one GET; `membershipId` is the query parameter, None when absent. */
  function Get(st: Snapshot<Content>, membershipId: Option<string>): (r: Response<seq<Content>>)
    ensures r.Err? <==> StrTruthy(membershipId) && ParseInt(membershipId.value).None?
    ensures r.Err? ==> r == Err(500, Store(CastFailed))
    ensures r.Ok? ==> forall k :: 0 <= k < |r.body| ==> r.body[k] in st.docs
  {
    if StrTruthy(membershipId) then
      match ParseInt(membershipId.value)
      case None => Err(500, Store(CastFailed))
      case Some(id) => Ok(NewestFirst(st.docs, (c: Content) => c.membershipId == id))
    else Ok(NewestFirst(st.docs, (c: Content) => true))
  }

  method HandleGet(db: Collection<Content>, membershipId: Option<string>) returns (resp: Response<seq<Content>>)
    ensures resp == Get(db.State(), membershipId)
  {
    var filter: Content -> bool := (c: Content) => true;
    if StrTruthy(membershipId) {
      var id := ParseInt(membershipId.value);
      if id.None? {
        return Err(500, Store(CastFailed));
      }
      filter := (c: Content) => c.membershipId == id.value;
    }
    var items := db.FindNewestFirst(filter);
    return Ok(items);
  }

  /** A parameter that parses lists exactly the items of that membership, newest first. */
  lemma GetByMembership(st: Snapshot<Content>, param: string, id: int)
    requires ValidStore(st) && param != "" && ParseInt(param) == Some(id)
    ensures var resp := Get(st, Some(param));
      && resp.Ok?
      && (forall i :: 0 <= i < |resp.body| ==> resp.body[i] in st.docs && resp.body[i].membershipId == id)
      && (forall j :: 0 <= j < |st.docs| && st.docs[j].membershipId == id ==> st.docs[j] in resp.body)
      && DescendingBy(resp.body, CreatedAt)
  {
    NewestFirstDescending(st.docs, (c: Content) => c.membershipId == id, CreatedAt);
  }

  /** Without a parameter every item is listed, newest first. */
  lemma GetAllNewestFirst(st: Snapshot<Content>, membershipId: Option<string>)
    requires ValidStore(st) && !StrTruthy(membershipId)
    ensures var resp := Get(st, membershipId);
      && resp.Ok?
      && |resp.body| == |st.docs|
      && (forall j :: 0 <= j < |st.docs| ==> st.docs[j] in resp.body)
      && DescendingBy(resp.body, CreatedAt)
  {
    var all := (c: Content) => true;
    NewestFirstDescending(st.docs, all, CreatedAt);
    NewestFirstKeepsAll(st.docs);
  }

  lemma {:induction false} NewestFirstKeepsAll(docs: seq<Content>)
    ensures |NewestFirst(docs, (c: Content) => true)| == |docs|
  {
    if docs != [] {
      NewestFirstKeepsAll(docs[..|docs| - 1]);
    }
  }

  /** A parameter `parseInt` reads as NaN fails the store's cast with 500. */
  lemma GetUnparsableId(st: Snapshot<Content>, param: string)
    requires param != "" && ParseInt(param).None?
    ensures Get(st, Some(param)) == Err(500, Store(CastFailed))
  {
  }

  // ---------------------------------------------------------------------
  // POST
  // ---------------------------------------------------------------------

  /** A membershipId in a JSON body: a number or a string. */
  datatype IdField = NumId(n: int) | TextId(s: string)

  predicate IdTruthy(f: Option<IdField>)
  {
    match f
    case None => false
    case Some(NumId(n)) => n != 0
    case Some(TextId(s)) => s != ""
  }

  /** `parseInt(membershipId)`: a number goes through its decimal rendering
      first, so a numeric membershipId survives unchanged. */
  function ParseId(f: IdField): (r: Option<int>)
    ensures f.NumId? ==> r == Some(f.n)
  {
    match f
    case NumId(n) => ParseIntRoundTrip(n); ParseInt(IntToString(n))
    case TextId(s) => ParseInt(s)
  }

  /** A content request body; None for a field that is absent. */
  datatype ContentBody = ContentBody(
    membershipId: Option<IdField>,
    title: Option<string>,
    description: Option<string>,
    contentURI: Option<string>,
    contentType: Option<string>)

  predicate HasRequiredFields(b: ContentBody)
  {
    IdTruthy(b.membershipId) && StrTruthy(b.title)
  }

  /** What POST hands to the store. */
  function Draft(b: ContentBody): ContentDraft
    requires HasRequiredFields(b)
  {
    ContentDraft(ParseId(b.membershipId.value), b.title.value, b.description, b.contentURI,
                 StrOr(b.contentType, "text"))
  }

  /** The response and the new collection contents of one POST. */
  function Post(st: Snapshot<Content>, b: ContentBody): (r: (Response<Content>, Snapshot<Content>))
    ensures r.0.Err? ==> r.1 == st
    ensures r.0.Ok? ==> HasRequiredFields(b) && r.1 == Snapshot(st.docs + [r.0.body], st.clock + 1)
  {
    if !HasRequiredFields(b) then (MissingFields(), st)
    else
      var (r, st') := CreateSpec(st, Draft(b));
      (Respond(r), st')
  }

  method HandlePost(db: Collection<Content>, b: ContentBody) returns (resp: Response<Content>)
    requires Valid(db)
    modifies db
    ensures Valid(db)
    ensures (resp, db.State()) == Post(old(db.State()), b)
  {
    if !IdTruthy(b.membershipId) || !StrTruthy(b.title) {
      return MissingFields();
    }
    var id := ParseId(b.membershipId.value);
    var r := Create(db, ContentDraft(id, b.title.value, b.description, b.contentURI,
                                     if StrTruthy(b.contentType) then b.contentType.value else "text"));
    resp := Respond(r);
  }

  /** A falsy membershipId (0 or "") or title gives 400 and changes nothing. */
  lemma PostMissingFields(st: Snapshot<Content>, b: ContentBody)
    requires !HasRequiredFields(b)
    ensures Post(st, b) == (Err(400, Message("Missing required fields")), st)
  {
  }

  /** A body without a contentType stores a text item; one naming a type
      outside the enum is refused with 500. */
  lemma PostContentType(st: Snapshot<Content>, b: ContentBody)
    requires HasRequiredFields(b) && ParseId(b.membershipId.value).Some?
    ensures !StrTruthy(b.contentType) ==> Post(st, b).0.Ok? && Post(st, b).0.body.contentType == Text
    ensures StrTruthy(b.contentType) && ParseContentType(b.contentType.value).None? ==>
      Post(st, b) == (Err(500, Store(ValidationFailed)), st)
  {
  }

  /** A string membershipId that `parseInt` reads as NaN is refused with 500. */
  lemma PostUnparsableId(st: Snapshot<Content>, b: ContentBody)
    requires HasRequiredFields(b) && ParseId(b.membershipId.value).None?
    ensures Post(st, b) == (Err(500, Store(ValidationFailed)), st)
  {
  }

  /** An item posted with a numeric membershipId heads the listing GET gives
      for the decimal rendering of that id. */
  lemma PostThenListedFirst(st: Snapshot<Content>, b: ContentBody, n: int)
    requires ValidStore(st) && HasRequiredFields(b)
    requires b.membershipId == Some(NumId(n))
    requires Post(st, b).0.Ok?
    ensures var (resp, st') := Post(st, b);
      var listing := Get(st', Some(IntToString(n)));
      listing.Ok? && |listing.body| > 0 && listing.body[0] == resp.body
  {
    ParseIntRoundTrip(n);
    var (resp, st') := Post(st, b);
    assert st'.docs == st.docs + [resp.body];
    assert st'.docs[..|st'.docs| - 1] == st.docs;
    assert IntToString(n) != "";
  }
}
