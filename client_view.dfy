/**
 * The membership records as the browser pages receive them from
 * `GET /api/memberships`: the fields the pages use, with totalMembers
 * possibly missing (read as 0 wherever it is summed or compared), and the
 * outcome of one fetch.
 */
module ClientView {
  import opened Common
  import MembershipModel

  /** A membership as the pages see it. */
  datatype MembershipView = MembershipView(
    membershipId: int,
    creator: string,
    name: string,
    price: real,
    totalMembers: Option<int>)

  /** The JSON the server sends for a stored membership. */
  function ViewOf(m: MembershipModel.Membership): (v: MembershipView)
    ensures v.membershipId == m.membershipId && v.creator == m.creator && v.price == m.price
    ensures v.totalMembers == Some(m.totalMembers)
  {
    MembershipView(m.membershipId, m.creator, m.name, m.price, Some(m.totalMembers))
  }

  /** `m.totalMembers || 0`. */
  function MembersOf(m: MembershipView): (n: int)
    ensures m.totalMembers.Some? ==> n == m.totalMembers.value
    ensures m.totalMembers.None? ==> n == 0
  {
    IntOr(m.totalMembers, 0)
  }

  /** The outcome of one fetch of the membership list: the parsed list, or
      a failure (a non-ok status, a network error or a body that is not JSON). */
  datatype FetchResult = Fetched(data: seq<MembershipView>) | FetchFailed

  /** Every summed member count over records the server sent is the stored count. */
  lemma {:induction false} MembersOfServerRecords(ms: seq<MembershipModel.Membership>)
    ensures SumInt(Views(ms), MembersOf) == SumInt(ms, (m: MembershipModel.Membership) => m.totalMembers)
  {
    if ms != [] {
      MembersOfServerRecords(ms[1..]);
      assert Views(ms)[1..] == Views(ms[1..]);
    }
  }

  /** The list of views of a list of stored memberships. */
  function Views(ms: seq<MembershipModel.Membership>): (vs: seq<MembershipView>)
    ensures |vs| == |ms|
    ensures forall i :: 0 <= i < |ms| ==> vs[i] == ViewOf(ms[i])
  {
    seq(|ms|, i requires 0 <= i < |ms| => ViewOf(ms[i]))
  }
}
