/**
 * The explore page: the query it sends for the list of memberships and
 * the order it shows them in — by price (either way), by members (most
 * first), or as the server sent them.
 */
module Explore {
  import opened Common
  import opened Text
  import opened ClientView

  // ---------------------------------------------------------------------
  // The query
  // ---------------------------------------------------------------------

  /**
   * The parameters `fetchMemberships` appends, in order: `search` and
   * `category` when not empty, then the cache-busting `t`, the current time
   * `now` in milliseconds.
   */
  method QueryParams(search: string, category: string, now: int) returns (params: seq<(string, string)>)
    ensures ("search", search) in params <==> search != ""
    ensures ("category", category) in params <==> category != ""
    ensures |params| == (if search != "" then 1 else 0) + (if category != "" then 1 else 0) + 1
    ensures params[|params| - 1] == ("t", IntToString(now))
    ensures search != "" ==> params[0] == ("search", search)
    ensures forall i :: 0 <= i < |params| ==> params[i].0 in {"search", "category", "t"}
  {
    params := [];
    if search != "" {
      params := params + [("search", search)];
    }
    if category != "" {
      params := params + [("category", category)];
    }
    params := params + [("t", IntToString(now))];
  }

  // ---------------------------------------------------------------------
  // The sort
  // ---------------------------------------------------------------------

  /** The sort the page applies for a `sortBy` value, if any. */
  datatype SortRule = PriceLow | PriceHigh | Members

  function RuleOf(sortBy: string): (r: Option<SortRule>)
    ensures r.None? <==> sortBy !in {"price-low", "price-high", "members"}
  {
    if sortBy == "price-low" then Some(PriceLow)
    else if sortBy == "price-high" then Some(PriceHigh)
    else if sortBy == "members" then Some(Members)
    else None
  }

  /**
   * The key each comparator sorts by, ascending: `a.price - b.price` sorts
   * by price, `b.price - a.price` by the negated price, and
   * `(b.totalMembers || 0) - (a.totalMembers || 0)` by the negated members.
   */
  function Key(rule: SortRule): MembershipView -> real
  {
    match rule
    case PriceLow => (m: MembershipView) => m.price
    case PriceHigh => (m: MembershipView) => -m.price
    case Members => (m: MembershipView) => -(MembersOf(m) as real)
  }

  predicate SortedBy(s: seq<MembershipView>, key: MembershipView -> real)
  {
    forall i, j :: 0 <= i < j < |s| ==> key(s[i]) <= key(s[j])
  }

  /** What each rule promises about the order. */
  lemma KeyOrder(rule: SortRule, s: seq<MembershipView>)
    requires SortedBy(s, Key(rule))
    ensures rule == PriceLow ==> forall i, j :: 0 <= i < j < |s| ==> s[i].price <= s[j].price
    ensures rule == PriceHigh ==> forall i, j :: 0 <= i < j < |s| ==> s[i].price >= s[j].price
    ensures rule == Members ==> forall i, j :: 0 <= i < j < |s| ==> MembersOf(s[i]) >= MembersOf(s[j])
  {
    forall i, j | 0 <= i < j < |s|
      ensures rule == PriceLow ==> s[i].price <= s[j].price
      ensures rule == PriceHigh ==> s[i].price >= s[j].price
      ensures rule == Members ==> MembersOf(s[i]) >= MembersOf(s[j])
    {
      assert Key(rule)(s[i]) <= Key(rule)(s[j]);
    }
  }

  /** `a.sort(comparator)`: sorts `a` in place by `key`, ascending. */
  method SortByKey(a: array<MembershipView>, key: MembershipView -> real)
    modifies a
    ensures SortedBy(a[..], key)
    ensures multiset(a[..]) == multiset(old(a[..]))
  {
    var i := 0;
    while i < a.Length
      invariant 0 <= i <= a.Length
      invariant SortedBy(a[..i], key)
      invariant multiset(a[..]) == multiset(old(a[..]))
    {
      Insert(a, i, key);
      i := i + 1;
    }
  }

  /** Moves `a[i]` down into the sorted prefix `a[..i]`. */
  method Insert(a: array<MembershipView>, i: int, key: MembershipView -> real)
    requires 0 <= i < a.Length && SortedBy(a[..i], key)
    modifies a
    ensures SortedBy(a[..i + 1], key)
    ensures a[i + 1..] == old(a[i + 1..])
    ensures multiset(a[..]) == multiset(old(a[..]))
  {
    var j := i;
    assert InsertingAt(a[..], i, j, key);
    while j > 0 && key(a[j - 1]) > key(a[j])
      invariant 0 <= j <= i
      invariant a[i + 1..] == old(a[i + 1..])
      invariant multiset(a[..]) == multiset(old(a[..]))
      invariant InsertingAt(a[..], i, j, key)
    {
      ghost var before := a[..];
      a[j - 1], a[j] := a[j], a[j - 1];
      assert a[..] == Swapped(before, j);
      SwapStep(before, i, j, key);
      j := j - 1;
    }
    InsertedAt(a[..], i, j, key);
  }

  /** The sequence with the elements at `j - 1` and `j` exchanged. */
  function Swapped<T>(s: seq<T>, j: int): (t: seq<T>)
    requires 0 < j < |s|
    ensures |t| == |s| && t[j - 1] == s[j] && t[j] == s[j - 1]
    ensures forall k :: 0 <= k < |s| && k != j - 1 && k != j ==> t[k] == s[k]
  {
    s[j - 1 := s[j]][j := s[j - 1]]
  }

  /** While `a[i]` moves down to `j`, the prefix `a[..i + 1]` is in order
      except around `j`, and the neighbours of `j` are in order. */
  predicate InsertingAt(s: seq<MembershipView>, i: int, j: int, key: MembershipView -> real)
    requires 0 <= j <= i < |s|
  {
    && (forall p, q :: 0 <= p < q <= i && q != j ==> key(s[p]) <= key(s[q]))
    && (0 < j < i ==> key(s[j - 1]) <= key(s[j + 1]))
  }

  /** One exchange moves the inserted element down by one and keeps the rest. */
  lemma SwapStep(s: seq<MembershipView>, i: int, j: int, key: MembershipView -> real)
    requires 0 < j <= i < |s| && InsertingAt(s, i, j, key) && key(s[j - 1]) > key(s[j])
    ensures InsertingAt(Swapped(s, j), i, j - 1, key)
    ensures Swapped(s, j)[i + 1..] == s[i + 1..]
    ensures multiset(Swapped(s, j)) == multiset(s)
  {
    var t := Swapped(s, j);
    forall p, q | 0 <= p < q <= i && q != j - 1
      ensures key(t[p]) <= key(t[q])
    {
      if q == j {
        assert t[q] == s[j - 1];
        if p < j - 1 {
          assert key(s[p]) <= key(s[j - 1]);
        }
      } else if p == j - 1 {
        assert t[p] == s[j];
        if j < i || q > j {
          assert key(s[j - 1]) <= key(s[q]);
        }
      } else if p == j {
        assert t[p] == s[j - 1];
      }
    }
    assert t == s[j - 1 := s[j]][j := s[j - 1]];
  }

  /** When the element stops, the prefix `a[..i + 1]` is sorted. */
  lemma InsertedAt(s: seq<MembershipView>, i: int, j: int, key: MembershipView -> real)
    requires 0 <= j <= i < |s| && InsertingAt(s, i, j, key)
    requires j == 0 || key(s[j - 1]) <= key(s[j])
    ensures SortedBy(s[..i + 1], key)
  {
    forall p, q | 0 <= p < q <= i
      ensures key(s[p]) <= key(s[q])
    {
      if q == j && p < j - 1 {
        assert key(s[p]) <= key(s[j - 1]);
      }
    }
  }

  /** The page's state. */
  class ExplorePage {
    var memberships: seq<MembershipView>
    var loading: bool
    var search: string
    var category: string
    var sortBy: string

    constructor()
      ensures memberships == [] && loading && search == "" && category == "" && sortBy == "newest"
    {
      memberships := [];
      loading := true;
      search := "";
      category := "";
      sortBy := "newest";
    }

    /**
     * `fetchMemberships()` at time `now`; `response` is the outcome of the
     * fetch the returned query asks for.
     */
    method FetchMemberships(now: int, response: FetchResult) returns (params: seq<(string, string)>)
      modifies this
      ensures search == old(search) && category == old(category) && sortBy == old(sortBy)
      ensures ("search", search) in params <==> search != ""
      ensures ("category", category) in params <==> category != ""
      ensures |params| > 0 && params[|params| - 1] == ("t", IntToString(now))
      ensures !loading
      ensures response.FetchFailed? ==> memberships == old(memberships)
      ensures response.Fetched? ==> multiset(memberships) == multiset(response.data)
      ensures response.Fetched? && RuleOf(sortBy).Some? ==> SortedBy(memberships, Key(RuleOf(sortBy).value))
      ensures response.Fetched? && RuleOf(sortBy).None? ==> memberships == response.data
    {
      loading := true;
      params := QueryParams(search, category, now);
      if response.Fetched? {
        var data := response.data;
        var sorted := new MembershipView[|data|](k requires 0 <= k < |data| => data[k]);
        assert sorted[..] == data;
        var rule := RuleOf(sortBy);
        if rule.Some? {
          SortByKey(sorted, Key(rule.value));
        }
        memberships := sorted[..];
      }
      loading := false;
    }
  }
}
