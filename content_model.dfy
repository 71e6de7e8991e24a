/**
 * The Content schema: a gated item of a membership with a required
 * numeric membershipId, a required title, optional description and
 * contentURI, a contentType restricted to text, image, video or file
 * (text by default), and a createdAt timestamp.
 */
module ContentModel {
  import opened Common
  import opened Store

  /** The values the contentType enum admits. */
  datatype ContentType = Text | Image | Video | File

  /** The stored spelling of a content type. */
  function ContentTypeName(t: ContentType): string
  {
    match t
    case Text => "text"
    case Image => "image"
    case Video => "video"
    case File => "file"
  }

  /** The enum check: the content type a string names, if any. */
  function ParseContentType(s: string): (r: Option<ContentType>)
    ensures r.Some? ==> ContentTypeName(r.value) == s
  {
    if s == "text" then Some(Text)
    else if s == "image" then Some(Image)
    else if s == "video" then Some(Video)
    else if s == "file" then Some(File)
    else None
  }

  /** Every content type's name passes the enum check as that type. */
  lemma ContentTypeRoundTrip(t: ContentType)
    ensures ParseContentType(ContentTypeName(t)) == Some(t)
  {
  }

  /** The enum admits exactly the four names. */
  lemma ContentTypeAdmits(s: string)
    ensures ParseContentType(s).Some? <==> s in ["text", "image", "video", "file"]
  {
  }

  datatype Content = Content(
    membershipId: int,
    title: string,
    description: Option<string>,
    contentURI: Option<string>,
    contentType: ContentType,
    createdAt: int)

  /**
   * What a handler passes to `Content.create`: the membershipId after
   * `parseInt` (None for NaN) and the contentType as a string, both still
   * to be cast and checked by the schema.
   */
  datatype ContentDraft = ContentDraft(
    membershipId: Option<int>,
    title: string,
    description: Option<string>,
    contentURI: Option<string>,
    contentType: string)

  predicate WellFormed(c: Content)
  {
    c.title != ""
  }

  /** Creation stamps grow with insertion order and stay below the clock. */
  predicate ValidStore(st: Snapshot<Content>)
  {
    && (forall i, j :: 0 <= i < j < |st.docs| ==> st.docs[i].createdAt < st.docs[j].createdAt)
    && (forall i :: 0 <= i < |st.docs| ==> WellFormed(st.docs[i]) && st.docs[i].createdAt < st.clock)
  }

  ghost predicate Valid(c: Collection<Content>)
    reads c
  {
    ValidStore(c.State())
  }

  /** `Content.create(d)`: the NaN cast, the required title, the enum, the createdAt stamp. */
  function CreateSpec(st: Snapshot<Content>, d: ContentDraft): (r: (DbResult<Content>, Snapshot<Content>))
    ensures ValidStore(st) ==> ValidStore(r.1)
    ensures r.0.Rejected? ==> r.1 == st
    ensures r.0.Stored? ==> r.1 == Snapshot(st.docs + [r.0.doc], st.clock + 1)
    ensures r.0.Stored? <==> d.membershipId.Some? && d.title != "" && ParseContentType(d.contentType).Some?
  {
    if d.membershipId.None? || d.title == "" then (Rejected(ValidationFailed), st)
    else match ParseContentType(d.contentType)
      case None => (Rejected(ValidationFailed), st)
      case Some(t) =>
        var n := Content(d.membershipId.value, d.title, d.description, d.contentURI, t, st.clock);
        (Stored(n), Snapshot(st.docs + [n], st.clock + 1))
  }

  method Create(c: Collection<Content>, d: ContentDraft) returns (r: DbResult<Content>)
    requires Valid(c)
    modifies c
    ensures Valid(c)
    ensures (r, c.State()) == CreateSpec(old(c.State()), d)
  {
    if d.membershipId.None? || d.title == "" {
      return Rejected(ValidationFailed);
    }
    var t := ParseContentType(d.contentType);
    if t.None? {
      return Rejected(ValidationFailed);
    }
    var n := Content(d.membershipId.value, d.title, d.description, d.contentURI, t.value, c.clock);
    c.Insert(n);
    r := Stored(n);
  }
}
