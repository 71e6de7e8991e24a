/**
 * The analytics page's figures for the memberships a creator owns: how
 * many there are, their members summed, and their revenue summed, each
 * membership's revenue being its price times its members.
 */
module Analytics {
  import opened Common
  import opened ClientView

  datatype Stats = Stats(totalMemberships: int, totalMembers: int, totalRevenue: real)

  /** `(m.price || 0) * (m.totalMembers || 0)`; `m.price || 0` is the price
      itself, 0 included. */
  function RowRevenue(m: MembershipView): (r: real)
    ensures m.totalMembers.None? ==> r == 0.0
  {
    m.price * (MembersOf(m) as real)
  }

  /** The three figures for a fetched list. A one-row list counts once and
      contributes its own members and revenue; with `StatsAppend` this fixes
      the figures of every list. */
  function StatsOf(data: seq<MembershipView>): (r: Stats)
    ensures |data| == 1 ==> r == Stats(1, MembersOf(data[0]), RowRevenue(data[0]))
  {
    assert |data| == 1 ==> SumInt(data, MembersOf) == MembersOf(data[0]) && SumReal(data, RowRevenue) == RowRevenue(data[0]) by {
      if |data| == 1 {
        SumIntOfOne(data, MembersOf);
        SumRealOfOne(data, RowRevenue);
      }
    }
    Stats(|data|, SumInt(data, MembersOf), SumReal(data, RowRevenue))
  }

  /** An empty list gives all-zero figures. */
  lemma EmptyStats()
    ensures StatsOf([]) == Stats(0, 0, 0.0)
  {
  }

  /** The figures of two lists put together are the sums of their figures. */
  lemma StatsAppend(a: seq<MembershipView>, b: seq<MembershipView>)
    ensures var (sa, sb, s) := (StatsOf(a), StatsOf(b), StatsOf(a + b));
      && s.totalMemberships == sa.totalMemberships + sb.totalMemberships
      && s.totalMembers == sa.totalMembers + sb.totalMembers
      && s.totalRevenue == sa.totalRevenue + sb.totalRevenue
  {
    SumIntAppend(a, b, MembersOf);
    SumRealAppend(a, b, RowRevenue);
  }

  /** With member counts that are not negative and every price at most
      `cap`, the revenue is at most `cap` times the members, and not negative
      when no price is. */
  lemma {:induction false} RevenueBounded(data: seq<MembershipView>, cap: real)
    requires forall i :: 0 <= i < |data| ==> MembersOf(data[i]) >= 0 && 0.0 <= data[i].price <= cap
    ensures 0.0 <= StatsOf(data).totalRevenue <= cap * (StatsOf(data).totalMembers as real)
  {
    if data != [] {
      RevenueBounded(data[1..], cap);
      var m := data[0];
      var k := MembersOf(m) as real;
      assert 0.0 <= m.price * k <= cap * k by {
        assert 0.0 <= k;
      }
    }
  }

  /** The page's state. */
  class AnalyticsPage {
    var memberships: seq<MembershipView>
    var stats: Stats
    var loading: bool

    constructor()
      ensures memberships == [] && stats == Stats(0, 0, 0.0) && loading
    {
      memberships := [];
      stats := Stats(0, 0, 0.0);
      loading := true;
    }

    /**
     * `fetchData()` for the connected `address`; `response` is the outcome
     * of fetching the address's memberships, a failure standing for a body
     * that does not parse.
     */
    method FetchData(address: Option<string>, response: FetchResult)
      modifies this
      ensures !StrTruthy(address) ==> unchanged(this)
      ensures StrTruthy(address) ==> !loading
      ensures StrTruthy(address) && response.FetchFailed? ==>
        memberships == old(memberships) && stats == old(stats)
      ensures StrTruthy(address) && response.Fetched? ==>
        && memberships == response.data
        && stats.totalMemberships == |response.data|
        && stats.totalMembers == SumInt(response.data, MembersOf)
        && stats.totalRevenue == SumReal(memberships, RowRevenue)
    {
      if !StrTruthy(address) {
        return;
      }
      loading := true;
      if response.Fetched? {
        var data := response.data;
        memberships := data;
        var totalMembers := SumInt(data, MembersOf);
        var totalRevenue := SumReal(data, RowRevenue);
        stats := Stats(|data|, totalMembers, totalRevenue);
      }
      loading := false;
    }
  }
}
