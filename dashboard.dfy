/**
 * The dashboard page's data: the memberships the connected wallet
 * created (creator equal to the address up to case), those it joined
 * (membershipId among the ids the contract lists for the wallet), and the
 * "Total Members" figure summed over the created ones.
 */
module Dashboard {
  import opened Common
  import opened Text
  import opened ClientView

  /** `m.creator.toLowerCase() === address.toLowerCase()`. */
  function CreatedFilter(address: string): MembershipView -> bool
  {
    (m: MembershipView) => EqualsIgnoringCase(m.creator, address)
  }

  /** `ids.includes(m.membershipId)`. */
  function JoinedFilter(ids: seq<int>): MembershipView -> bool
  {
    (m: MembershipView) => m.membershipId in ids
  }

  /** The memberships `address` created, in list order. */
  function CreatedBy(data: seq<MembershipView>, address: string): (r: seq<MembershipView>)
    ensures forall i :: 0 <= i < |r| ==> r[i] in data && EqualsIgnoringCase(r[i].creator, address)
    ensures forall j :: 0 <= j < |data| && EqualsIgnoringCase(data[j].creator, address) ==> data[j] in r
  {
    Filter(data, CreatedFilter(address))
  }

  /** The memberships whose id is among `ids`, in list order. */
  function JoinedIn(data: seq<MembershipView>, ids: seq<int>): (r: seq<MembershipView>)
    ensures forall i :: 0 <= i < |r| ==> r[i] in data && r[i].membershipId in ids
    ensures forall j :: 0 <= j < |data| && data[j].membershipId in ids ==> data[j] in r
  {
    Filter(data, JoinedFilter(ids))
  }

  /** `createdMemberships.reduce((sum, m) => sum + (m.totalMembers || 0), 0)`. */
  function TotalMembers(created: seq<MembershipView>): (r: int)
    ensures |created| == 1 ==> r == MembersOf(created[0])
    ensures (forall i :: 0 <= i < |created| ==> MembersOf(created[i]) >= 0) ==> r >= 0
  {
    assert |created| == 1 ==> SumInt(created, MembersOf) == MembersOf(created[0]) by {
      if |created| == 1 { SumIntOfOne(created, MembersOf); }
    }
    assert (forall i :: 0 <= i < |created| ==> MembersOf(created[i]) >= 0) ==> SumInt(created, MembersOf) >= 0 by {
      if forall i :: 0 <= i < |created| ==> MembersOf(created[i]) >= 0 {
        SumIntNonNegative(created);
      }
    }
    SumInt(created, MembersOf)
  }

  /** Both selections keep the list order: each is a subsequence of the list. */
  lemma SelectionsKeepOrder(data: seq<MembershipView>, address: string, ids: seq<int>)
    ensures SubsequenceOf(CreatedBy(data, address), data)
    ensures SubsequenceOf(JoinedIn(data, ids), data)
  {
    FilterIsSubsequence(data, CreatedFilter(address));
    FilterIsSubsequence(data, JoinedFilter(ids));
  }

  /** The created selection depends on the address only up to case. */
  lemma CreatedByIgnoresCase(data: seq<MembershipView>, a: string, b: string)
    requires EqualsIgnoringCase(a, b)
    ensures CreatedBy(data, a) == CreatedBy(data, b)
  {
    FilterSameFilter(data, CreatedFilter(a), CreatedFilter(b));
  }

  /** The members of the created memberships and those of the others make up
      the members of the whole list. */
  lemma TotalMembersSplit(data: seq<MembershipView>, address: string)
    ensures TotalMembers(CreatedBy(data, address)) + TotalMembers(Filter(data, Negate(CreatedFilter(address))))
         == SumInt(data, MembersOf)
  {
    SumIntFilterSplit(data, CreatedFilter(address), MembersOf);
  }

  /** With non-negative counts, the total never exceeds that of the whole list. */
  lemma TotalMembersBounded(data: seq<MembershipView>, address: string)
    requires forall i :: 0 <= i < |data| ==> MembersOf(data[i]) >= 0
    ensures 0 <= TotalMembers(CreatedBy(data, address)) <= SumInt(data, MembersOf)
  {
    TotalMembersSplit(data, address);
    FilterKeepsNonNegative(data, CreatedFilter(address));
    FilterKeepsNonNegative(data, Negate(CreatedFilter(address)));
  }

  lemma FilterKeepsNonNegative(s: seq<MembershipView>, p: MembershipView -> bool)
    requires forall i :: 0 <= i < |s| ==> MembersOf(s[i]) >= 0
    ensures var r := Filter(s, p); forall i :: 0 <= i < |r| ==> MembersOf(r[i]) >= 0
  {
    var r := Filter(s, p);
    forall i | 0 <= i < |r|
      ensures MembersOf(r[i]) >= 0
    {
      assert r[i] in s;
      var j :| 0 <= j < |s| && s[j] == r[i];
    }
  }

  lemma {:induction false} SumIntNonNegative(s: seq<MembershipView>)
    requires forall i :: 0 <= i < |s| ==> MembersOf(s[i]) >= 0
    ensures SumInt(s, MembersOf) >= 0
  {
    if s != [] {
      SumIntNonNegative(s[1..]);
    }
  }

  /** The page's state. */
  class DashboardPage {
    var memberships: seq<MembershipView>
    var userMemberships: seq<MembershipView>
    var createdMemberships: seq<MembershipView>
    var loading: bool

    constructor()
      ensures memberships == [] && userMemberships == [] && createdMemberships == []
      ensures loading
    {
      memberships := [];
      userMemberships := [];
      createdMemberships := [];
      loading := true;
    }

    /** The "Total Members" figure. */
    function TotalMembersShown(): int
      reads this
    {
      TotalMembers(createdMemberships)
    }

    /**
     * `fetchData()`. `address` is the connected wallet, `userMembershipIds`
     * the ids the contract read returned (None when it is not an array) and
     * `response` the outcome of fetching the membership list.
     */
    method FetchData(address: Option<string>, userMembershipIds: Option<seq<int>>, response: FetchResult)
      modifies this
      ensures !StrTruthy(address) ==> unchanged(this)
      ensures StrTruthy(address) ==> !loading
      ensures StrTruthy(address) && response.FetchFailed? ==>
        memberships == old(memberships) && createdMemberships == old(createdMemberships)
        && userMemberships == old(userMemberships)
      ensures StrTruthy(address) && response.Fetched? ==>
        && memberships == response.data
        && createdMemberships == CreatedBy(response.data, address.value)
        && userMemberships == (if userMembershipIds.Some? then JoinedIn(response.data, userMembershipIds.value)
                               else old(userMemberships))
    {
      if !StrTruthy(address) {
        return;
      }
      loading := true;
      if response.Fetched? {
        var data := response.data;
        memberships := data;
        createdMemberships := Filter(data, CreatedFilter(address.value));
        if userMembershipIds.Some? {
          userMemberships := Filter(data, JoinedFilter(userMembershipIds.value));
        }
      }
      loading := false;
    }
  }
}
