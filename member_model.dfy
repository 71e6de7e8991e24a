/**
 * The Member schema: one record per (membershipId, walletAddress) pair,
 * wallet stored lower-cased, tokenId and expiresAt optional, isActive
 * defaulting to true and joinedAt to the creation time.
 */
module MemberModel {
  import opened Common
  import opened Text
  import opened Store

  datatype Member = Member(
    membershipId: int,
    walletAddress: string,
    tokenId: Option<int>,
    joinedAt: int,
    expiresAt: Option<int>,
    isActive: bool)

  /** The compound unique index. */
  datatype MemberKey = MemberKey(membershipId: int, walletAddress: string)

  function KeyOf(m: Member): MemberKey
  {
    MemberKey(m.membershipId, m.walletAddress)
  }

  /** The `findOne` filter for one key. */
  function HasKey(k: MemberKey): Member -> bool
  {
    m => KeyOf(m) == k
  }

  /** The `lowercase` setter on walletAddress. */
  function Normalize(m: Member): (r: Member)
    ensures IsLower(r.walletAddress)
    ensures r == m.(walletAddress := r.walletAddress)
    ensures IsLower(m.walletAddress) ==> r == m
  {
    m.(walletAddress := Lower(m.walletAddress))
  }

  /** Schema validation: a required string must be non-empty; a required number is always present. */
  predicate Validates(m: Member)
  {
    m.walletAddress != ""
  }

  /** What every stored member satisfies. */
  predicate WellFormed(m: Member)
  {
    Validates(m) && IsLower(m.walletAddress)
  }

  /** After the setter, the schema accepts a member exactly when it has a wallet. */
  lemma SchemaAccepts(m: Member)
    ensures WellFormed(Normalize(m)) <==> m.walletAddress != ""
  {
  }

  predicate UniqueKeys(docs: seq<Member>)
  {
    forall i, j :: 0 <= i < j < |docs| ==> KeyOf(docs[i]) != KeyOf(docs[j])
  }

  /** The collection invariant: well-formed records, the unique index, and
      every joinedAt stamp earlier than the clock. */
  predicate ValidStore(st: Snapshot<Member>)
  {
    && UniqueKeys(st.docs)
    && (forall i :: 0 <= i < |st.docs| ==> WellFormed(st.docs[i]) && st.docs[i].joinedAt < st.clock)
  }

  ghost predicate Valid(c: Collection<Member>)
    reads c
  {
    ValidStore(c.State())
  }

  /** `Member.create(d)`: setters, the joinedAt default, validation, the unique index. */
  function CreateSpec(st: Snapshot<Member>, d: Member): (r: (DbResult<Member>, Snapshot<Member>))
    ensures ValidStore(st) ==> ValidStore(r.1)
    ensures r.0.Rejected? ==> r.1 == st
    ensures r.0.Stored? ==> r.0.doc == Normalize(d).(joinedAt := st.clock)
    ensures r.0.Stored? ==> r.1 == Snapshot(st.docs + [r.0.doc], st.clock + 1)
  {
    var n := Normalize(d).(joinedAt := st.clock);
    if !Validates(n) then (Rejected(ValidationFailed), st)
    else if FirstMatch(st.docs, HasKey(KeyOf(n))).Some? then (Rejected(DuplicateKey), st)
    else (Stored(n), Snapshot(st.docs + [n], st.clock + 1))
  }

  /** `doc.save()` after assigning `d` to the document at `i`. */
  function SaveSpec(st: Snapshot<Member>, i: nat, d: Member): (r: (DbResult<Member>, Snapshot<Member>))
    requires i < |st.docs|
    ensures ValidStore(st) && d.joinedAt == st.docs[i].joinedAt ==> ValidStore(r.1)
    ensures r.0.Rejected? ==> r.1 == st
    ensures r.0.Stored? ==> r.0.doc == Normalize(d)
    ensures r.0.Stored? ==> r.1 == Snapshot(st.docs[i := r.0.doc], st.clock)
  {
    var n := Normalize(d);
    if !Validates(n) then (Rejected(ValidationFailed), st)
    else if exists j :: 0 <= j < |st.docs| && j != i && KeyOf(st.docs[j]) == KeyOf(n) then
      (Rejected(DuplicateKey), st)
    else (Stored(n), Snapshot(st.docs[i := n], st.clock))
  }

  /** Saving a stored record without changing it leaves the collection as it is. */
  lemma SaveUnchanged(st: Snapshot<Member>, i: nat)
    requires ValidStore(st) && i < |st.docs|
    ensures SaveSpec(st, i, st.docs[i]) == (Stored(st.docs[i]), st)
  {
    var m := st.docs[i];
    assert forall j :: 0 <= j < |st.docs| && j != i ==> KeyOf(st.docs[j]) != KeyOf(m);
    assert st.docs[i := m] == st.docs;
  }

  method Create(c: Collection<Member>, d: Member) returns (r: DbResult<Member>)
    requires Valid(c)
    modifies c
    ensures Valid(c)
    ensures (r, c.State()) == CreateSpec(old(c.State()), d)
  {
    var n := Normalize(d).(joinedAt := c.clock);
    if !Validates(n) {
      return Rejected(ValidationFailed);
    }
    var clash := c.FindOne(HasKey(KeyOf(n)));
    if clash.Some? {
      return Rejected(DuplicateKey);
    }
    c.Insert(n);
    r := Stored(n);
  }

  method Save(c: Collection<Member>, i: nat, d: Member) returns (r: DbResult<Member>)
    requires Valid(c) && i < |c.docs| && d.joinedAt == c.docs[i].joinedAt
    modifies c
    ensures Valid(c)
    ensures (r, c.State()) == SaveSpec(old(c.State()), i, d)
  {
    var n := Normalize(d);
    if !Validates(n) {
      return Rejected(ValidationFailed);
    }
    var j := 0;
    while j < |c.docs|
      invariant 0 <= j <= |c.docs|
      invariant forall k :: 0 <= k < j && k != i ==> KeyOf(c.docs[k]) != KeyOf(n)
    {
      if j != i && KeyOf(c.docs[j]) == KeyOf(n) {
        return Rejected(DuplicateKey);
      }
      j := j + 1;
    }
    c.Replace(i, n);
    r := Stored(n);
  }
}
