/**
 * The Membership schema: membershipId required and unique, creator
 * required and lower-cased, name required and trimmed, description and
 * price required, isRecurring false / isActive true / totalMembers 0 by
 * default, and a createdAt timestamp.
 */
module MembershipModel {
  import opened Common
  import opened Text
  import opened Store

  datatype Membership = Membership(
    membershipId: int,
    creator: string,
    name: string,
    description: string,
    price: real,
    isRecurring: bool,
    expiryDuration: Option<int>,
    coverImage: Option<string>,
    metadataURI: Option<string>,
    category: Option<string>,
    isActive: bool,
    totalMembers: int,
    createdAt: int)

  /** A new record with the schema defaults for the fields a caller leaves out. */
  function WithDefaults(membershipId: int, creator: string, name: string, description: string, price: real): (m: Membership)
    ensures !m.isRecurring && m.isActive && m.totalMembers == 0
    ensures m.expiryDuration.None? && m.coverImage.None? && m.metadataURI.None? && m.category.None?
  {
    Membership(membershipId, creator, name, description, price, false, None, None, None, None, true, 0, 0)
  }

  /** The `findOne({ membershipId })` filter. */
  function HasId(id: int): Membership -> bool
  {
    (m: Membership) => m.membershipId == id
  }

  /** The `lowercase` setter on creator and the `trim` setter on name. */
  function Normalize(m: Membership): (r: Membership)
    ensures IsLower(r.creator) && Trim(r.name) == r.name
    ensures r == m.(creator := r.creator, name := r.name)
    ensures IsLower(m.creator) && Trim(m.name) == m.name ==> r == m
  {
    TrimIdempotent(m.name);
    m.(creator := Lower(m.creator), name := Trim(m.name))
  }

  /** Schema validation: the required strings are non-empty (a required number is always present). */
  predicate Validates(m: Membership)
  {
    m.creator != "" && m.name != "" && m.description != ""
  }

  predicate WellFormed(m: Membership)
  {
    Validates(m) && IsLower(m.creator) && Trim(m.name) == m.name
  }

  /** After the setters, the schema accepts a membership exactly when it has
      a creator, a description and a name that is not all white space. */
  lemma SchemaAccepts(m: Membership)
    ensures WellFormed(Normalize(m)) <==> m.creator != "" && Trim(m.name) != "" && m.description != ""
  {
  }

  predicate UniqueIds(docs: seq<Membership>)
  {
    forall i, j :: 0 <= i < j < |docs| ==> docs[i].membershipId != docs[j].membershipId
  }

  /** Creation stamps grow with insertion order and stay below the clock. */
  predicate StampsOrdered(st: Snapshot<Membership>)
  {
    && (forall i, j :: 0 <= i < j < |st.docs| ==> st.docs[i].createdAt < st.docs[j].createdAt)
    && (forall i :: 0 <= i < |st.docs| ==> st.docs[i].createdAt < st.clock)
  }

  predicate ValidStore(st: Snapshot<Membership>)
  {
    && UniqueIds(st.docs)
    && StampsOrdered(st)
    && (forall i :: 0 <= i < |st.docs| ==> WellFormed(st.docs[i]))
  }

  ghost predicate Valid(c: Collection<Membership>)
    reads c
  {
    ValidStore(c.State())
  }

  lemma AppendKeepsValid(st: Snapshot<Membership>, n: Membership)
    requires ValidStore(st) && WellFormed(n) && n.createdAt == st.clock
    requires forall j :: 0 <= j < |st.docs| ==> st.docs[j].membershipId != n.membershipId
    ensures ValidStore(Snapshot(st.docs + [n], st.clock + 1))
  {
    var docs := st.docs + [n];
    var last := |st.docs|;
    assert forall j :: 0 <= j < last ==> docs[j] == st.docs[j];
    assert docs[last] == n;
    assert UniqueIds(docs) by {
      forall i, j | 0 <= i < j < |docs|
        ensures docs[i].membershipId != docs[j].membershipId
      {
        if j == last {
          assert st.docs[i].membershipId != n.membershipId;
        }
      }
    }
    assert StampsOrdered(Snapshot(docs, st.clock + 1)) by {
      forall i, j | 0 <= i < j < |docs|
        ensures docs[i].createdAt < docs[j].createdAt
      {
        if j == last {
          assert st.docs[i].createdAt < st.clock;
        }
      }
    }
    assert forall i :: 0 <= i < |docs| ==> WellFormed(docs[i]);
  }

  lemma ReplaceKeepsValid(st: Snapshot<Membership>, i: nat, n: Membership)
    requires ValidStore(st) && i < |st.docs| && WellFormed(n) && n.createdAt == st.docs[i].createdAt
    requires forall j :: 0 <= j < |st.docs| && j != i ==> st.docs[j].membershipId != n.membershipId
    ensures ValidStore(Snapshot(st.docs[i := n], st.clock))
  {
  }

  /** `Membership.create(d)`: setters, the createdAt stamp, validation, the unique index. */
  function CreateSpec(st: Snapshot<Membership>, d: Membership): (r: (DbResult<Membership>, Snapshot<Membership>))
    ensures ValidStore(st) ==> ValidStore(r.1)
    ensures r.0.Rejected? ==> r.1 == st
    ensures r.0.Stored? ==> r.0.doc == Normalize(d).(createdAt := st.clock)
    ensures r.0.Stored? ==> r.1 == Snapshot(st.docs + [r.0.doc], st.clock + 1)
  {
    var n := Normalize(d).(createdAt := st.clock);
    if !Validates(n) then (Rejected(ValidationFailed), st)
    else if FirstMatch(st.docs, HasId(n.membershipId)).Some? then (Rejected(DuplicateKey), st)
    else
      assert ValidStore(st) ==> ValidStore(Snapshot(st.docs + [n], st.clock + 1)) by {
        if ValidStore(st) { AppendKeepsValid(st, n); }
      }
      (Stored(n), Snapshot(st.docs + [n], st.clock + 1))
  }

  /** `doc.save()` after assigning `d` to the document at `i`. */
  function SaveSpec(st: Snapshot<Membership>, i: nat, d: Membership): (r: (DbResult<Membership>, Snapshot<Membership>))
    requires i < |st.docs|
    ensures ValidStore(st) && d.createdAt == st.docs[i].createdAt ==> ValidStore(r.1)
    ensures r.0.Rejected? ==> r.1 == st
    ensures r.0.Stored? ==> r.0.doc == Normalize(d)
    ensures r.0.Stored? ==> r.1 == Snapshot(st.docs[i := r.0.doc], st.clock)
  {
    var n := Normalize(d);
    if !Validates(n) then (Rejected(ValidationFailed), st)
    else if exists j :: 0 <= j < |st.docs| && j != i && st.docs[j].membershipId == n.membershipId then
      (Rejected(DuplicateKey), st)
    else
      assert ValidStore(st) && d.createdAt == st.docs[i].createdAt ==> ValidStore(Snapshot(st.docs[i := n], st.clock)) by {
        if ValidStore(st) && d.createdAt == st.docs[i].createdAt { ReplaceKeepsValid(st, i, n); }
      }
      (Stored(n), Snapshot(st.docs[i := n], st.clock))
  }

  /** An accepted save stores the normalized record at `i` and changes nothing else. */
  lemma SaveAccepted(st: Snapshot<Membership>, i: nat, d: Membership)
    requires i < |st.docs| && SaveSpec(st, i, d).0.Stored?
    ensures SaveSpec(st, i, d) == (Stored(Normalize(d)), Snapshot(st.docs[i := Normalize(d)], st.clock))
  {
  }

  /** A save whose record validates and whose id no other record holds is accepted. */
  lemma SaveStores(st: Snapshot<Membership>, i: nat, d: Membership)
    requires i < |st.docs| && Validates(Normalize(d))
    requires forall j :: 0 <= j < |st.docs| && j != i ==> st.docs[j].membershipId != d.membershipId
    ensures SaveSpec(st, i, d) == (Stored(Normalize(d)), Snapshot(st.docs[i := Normalize(d)], st.clock))
  {
  }

  /** An accepted create appends the normalized record stamped with the clock. */
  lemma CreateAccepted(st: Snapshot<Membership>, d: Membership)
    requires CreateSpec(st, d).0.Stored?
    ensures var n := Normalize(d).(createdAt := st.clock);
      CreateSpec(st, d) == (Stored(n), Snapshot(st.docs + [n], st.clock + 1))
  {
  }

  /** A create whose record validates and whose id is new is accepted: it
      appends the normalized record stamped with the clock. */
  lemma CreateStores(st: Snapshot<Membership>, d: Membership)
    requires Validates(Normalize(d))
    requires forall j :: 0 <= j < |st.docs| ==> st.docs[j].membershipId != d.membershipId
    ensures var n := Normalize(d).(createdAt := st.clock);
      CreateSpec(st, d) == (Stored(n), Snapshot(st.docs + [n], st.clock + 1))
  {
    var n := Normalize(d).(createdAt := st.clock);
    assert forall j :: 0 <= j < |st.docs| ==> !HasId(n.membershipId)(st.docs[j]);
  }

  /** The same, with the id's absence as the unique index's lookup reports it. */
  lemma CreateFresh(st: Snapshot<Membership>, d: Membership)
    requires Validates(Normalize(d).(createdAt := st.clock))
    requires FirstMatch(st.docs, HasId(Normalize(d).(createdAt := st.clock).membershipId)).None?
    ensures var n := Normalize(d).(createdAt := st.clock);
      CreateSpec(st, d) == (Stored(n), Snapshot(st.docs + [n], st.clock + 1))
  {
  }

  /** A create whose record validates but whose id is stored is refused. */
  lemma CreateRejectsDuplicate(st: Snapshot<Membership>, d: Membership, i: nat)
    requires Validates(Normalize(d))
    requires i < |st.docs| && st.docs[i].membershipId == d.membershipId
    ensures CreateSpec(st, d) == (Rejected(DuplicateKey), st)
  {
    assert HasId(d.membershipId)(st.docs[i]);
  }

  /** A create leaves the records already stored where they are. */
  lemma CreateKeepsOthers(st: Snapshot<Membership>, d: Membership, j: nat)
    requires j < |st.docs|
    ensures j < |CreateSpec(st, d).1.docs| && CreateSpec(st, d).1.docs[j] == st.docs[j]
  {
    if CreateSpec(st, d).0.Stored? {
      CreateAccepted(st, d);
    }
  }

  /** A save of a record carrying the stored id and lower-case creator keeps
      the id and creator of every record. */
  lemma SaveKeepsIdAndCreator(st: Snapshot<Membership>, i: nat, d: Membership, j: nat)
    requires i < |st.docs| && j < |st.docs|
    requires d.membershipId == st.docs[i].membershipId && d.creator == st.docs[i].creator && IsLower(d.creator)
    ensures var docs := SaveSpec(st, i, d).1.docs;
      && j < |docs|
      && docs[j].membershipId == st.docs[j].membershipId
      && docs[j].creator == st.docs[j].creator
  {
    if SaveSpec(st, i, d).0.Stored? {
      SaveAccepted(st, i, d);
    }
  }

  method Create(c: Collection<Membership>, d: Membership) returns (r: DbResult<Membership>)
    requires Valid(c)
    modifies c
    ensures Valid(c)
    ensures (r, c.State()) == CreateSpec(old(c.State()), d)
  {
    ghost var st := c.State();
    var n := Normalize(d).(createdAt := c.clock);
    if !Validates(n) {
      assert CreateSpec(st, d) == (Rejected(ValidationFailed), st);
      return Rejected(ValidationFailed);
    }
    var clash := FirstMatch(c.docs, HasId(n.membershipId));
    if clash.Some? {
      assert CreateSpec(st, d) == (Rejected(DuplicateKey), st);
      return Rejected(DuplicateKey);
    }
    CreateFresh(st, d);
    c.Insert(n);
    r := Stored(n);
  }

  method Save(c: Collection<Membership>, i: nat, d: Membership) returns (r: DbResult<Membership>)
    requires Valid(c) && i < |c.docs| && d.createdAt == c.docs[i].createdAt
    modifies c
    ensures Valid(c)
    ensures (r, c.State()) == SaveSpec(old(c.State()), i, d)
  {
    var n := Normalize(d);
    if !Validates(n) {
      return Rejected(ValidationFailed);
    }
    ghost var st := c.State();
    var clash := OtherHasId(c.docs, i, n.membershipId);
    if clash {
      return Rejected(DuplicateKey);
    }
    SaveStores(st, i, d);
    c.Replace(i, n);
    r := Stored(n);
  }

  /** The unique index's check on a save: another record holds `id`. */
  method OtherHasId(docs: seq<Membership>, i: nat, id: int) returns (clash: bool)
    ensures clash <==> exists j :: 0 <= j < |docs| && j != i && docs[j].membershipId == id
  {
    var j := 0;
    while j < |docs|
      invariant 0 <= j <= |docs|
      invariant forall k :: 0 <= k < j && k != i ==> docs[k].membershipId != id
    {
      if j != i && docs[j].membershipId == id {
        return true;
      }
      j := j + 1;
    }
    return false;
  }
}
