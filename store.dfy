/**
 * A document collection as the route handlers see it: an ordered list of
 * documents (insertion order) and a creation clock that stands in for
 * `Date.now` in the schema defaults and timestamps. The schema rules of
 * each model (setters, validation, unique indexes) live in the model
 * modules, which wrap `Insert` and `Replace`.
 */
module Store {
  import opened Common

  /** The contents of a collection as a value. */
  datatype Snapshot<D> = Snapshot(docs: seq<D>, clock: int)

  /** What a write reports: the stored document, or the error the store raised. */
  datatype DbResult<D> = Stored(doc: D) | Rejected(cause: DbError)

  /** A handler's reply to a write: the stored document as JSON, or 500 with the store's error. */
  function Respond<D>(r: DbResult<D>): (resp: Response<D>)
    ensures resp.Ok? <==> r.Stored?
    ensures r.Stored? ==> resp.body == r.doc
    ensures r.Rejected? ==> resp == Err(500, Store(r.cause))
  {
    match r
    case Stored(m) => Ok(m)
    case Rejected(e) => Err(500, Store(e))
  }

  /** The index of the first document matching the filter `p` (`findOne`). */
  function FirstMatch<D>(docs: seq<D>, p: D -> bool): (r: Option<nat>)
    ensures r.Some? ==> r.value < |docs| && p(docs[r.value])
    ensures r.Some? ==> forall j :: 0 <= j < r.value ==> !p(docs[j])
    ensures r.None? <==> forall j :: 0 <= j < |docs| ==> !p(docs[j])
  {
    if docs == [] then None
    else if p(docs[0]) then Some(0)
    else match FirstMatch(docs[1..], p)
      case None => None
      case Some(i) => Some(i + 1)
  }

  /** The first match is determined by where the filter first holds. */
  lemma {:induction false} FirstMatchAt<D>(docs: seq<D>, p: D -> bool, i: nat)
    requires i < |docs| && p(docs[i])
    requires forall j :: 0 <= j < i ==> !p(docs[j])
    ensures FirstMatch(docs, p) == Some(i)
  {
    if i > 0 {
      FirstMatchAt(docs[1..], p, i - 1);
    }
  }

  /** Replacing the first match by another matching document keeps it the first match. */
  lemma FirstMatchAfterReplace<D>(docs: seq<D>, p: D -> bool, i: nat, d: D)
    requires FirstMatch(docs, p) == Some(i) && p(d)
    ensures FirstMatch(docs[i := d], p) == Some(i)
  {
    FirstMatchAt(docs[i := d], p, i);
  }

  /** The documents matching `p`, last inserted first: `find(p).sort({ createdAt: -1 })`
      on a collection whose creation stamps grow with insertion order. */
  function NewestFirst<D>(docs: seq<D>, p: D -> bool): (r: seq<D>)
    ensures |r| <= |docs|
    ensures forall i :: 0 <= i < |r| ==> r[i] in docs && p(r[i])
    ensures forall j :: 0 <= j < |docs| && p(docs[j]) ==> docs[j] in r
  {
    if docs == [] then []
    else
      var init := docs[..|docs| - 1];
      var last := docs[|docs| - 1];
      assert forall j :: 0 <= j < |docs| - 1 ==> docs[j] == init[j];
      (if p(last) then [last] else []) + NewestFirst(init, p)
  }

  /** Filters that agree on every document select the same documents. */
  lemma {:induction false} NewestFirstSameFilter<D>(docs: seq<D>, p: D -> bool, q: D -> bool)
    requires forall j :: 0 <= j < |docs| ==> p(docs[j]) == q(docs[j])
    ensures NewestFirst(docs, p) == NewestFirst(docs, q)
    decreases |docs|
  {
    if docs != [] {
      var init := docs[..|docs| - 1];
      assert forall j :: 0 <= j < |init| ==> init[j] == docs[j];
      NewestFirstSameFilter(init, p, q);
    }
  }

  /** The stamps of `s` strictly decrease from front to back. */
  predicate DescendingBy<D>(s: seq<D>, stamp: D -> int)
  {
    forall i, j :: 0 <= i < j < |s| ==> stamp(s[i]) > stamp(s[j])
  }

  /** A document stamped after every one of a descending sequence may go in front of it. */
  lemma DescendingPrepend<D>(x: D, s: seq<D>, stamp: D -> int)
    requires DescendingBy(s, stamp)
    requires forall k :: 0 <= k < |s| ==> stamp(s[k]) < stamp(x)
    ensures DescendingBy([x] + s, stamp)
  {
    var r := [x] + s;
    assert forall k :: 0 < k < |r| ==> r[k] == s[k - 1];
  }

  /** Every document selected from a prefix stamped below `bound` is stamped below it. */
  lemma NewestFirstOlderThan<D>(docs: seq<D>, p: D -> bool, stamp: D -> int, bound: int)
    requires forall j :: 0 <= j < |docs| ==> stamp(docs[j]) < bound
    ensures forall k :: 0 <= k < |NewestFirst(docs, p)| ==> stamp(NewestFirst(docs, p)[k]) < bound
  {
    var r := NewestFirst(docs, p);
    forall k | 0 <= k < |r|
      ensures stamp(r[k]) < bound
    {
      var j :| 0 <= j < |docs| && docs[j] == r[k];
    }
  }

  /** With stamps strictly increasing in insertion order, the result is in
      strictly decreasing stamp order. */
  lemma {:induction false} NewestFirstDescending<D>(docs: seq<D>, p: D -> bool, stamp: D -> int)
    requires forall i, j :: 0 <= i < j < |docs| ==> stamp(docs[i]) < stamp(docs[j])
    ensures DescendingBy(NewestFirst(docs, p), stamp)
    decreases |docs|
  {
    if docs != [] {
      var init := docs[..|docs| - 1];
      var last := docs[|docs| - 1];
      assert forall j :: 0 <= j < |init| ==> init[j] == docs[j];
      NewestFirstDescending(init, p, stamp);
      var rest := NewestFirst(init, p);
      NewestFirstOlderThan(init, p, stamp, stamp(last));
      var r := NewestFirst(docs, p);
      if p(last) {
        assert r == [last] + rest;
        DescendingPrepend(last, rest, stamp);
      } else {
        assert r == rest;
      }
    }
  }

  class Collection<D> {
    var docs: seq<D>
    var clock: int

    function State(): Snapshot<D>
      reads this
    {
      Snapshot(docs, clock)
    }

    constructor ()
      ensures docs == [] && clock == 0
    {
      docs := [];
      clock := 0;
    }

    /** `findOne(p)`: the index of the first matching document, if any. */
    method FindOne(p: D -> bool) returns (found: Option<nat>)
      ensures found == FirstMatch(docs, p)
    {
      var i := 0;
      while i < |docs|
        invariant 0 <= i <= |docs|
        invariant forall j :: 0 <= j < i ==> !p(docs[j])
      {
        if p(docs[i]) {
          FirstMatchAt(docs, p, i);
          return Some(i);
        }
        i := i + 1;
      }
      return None;
    }

    /** `find(p).sort({ createdAt: -1 })`: matching documents, newest first. */
    method FindNewestFirst(p: D -> bool) returns (result: seq<D>)
      ensures result == NewestFirst(docs, p)
    {
      result := [];
      var i := 0;
      while i < |docs|
        invariant 0 <= i <= |docs|
        invariant result == NewestFirst(docs[..i], p)
      {
        assert docs[..i + 1][..i] == docs[..i];
        result := (if p(docs[i]) then [docs[i]] else []) + result;
        i := i + 1;
      }
      assert docs[..|docs|] == docs;
    }

    /** Appends a document; the clock moves past its creation stamp. */
    method Insert(d: D)
      modifies this
      ensures docs == old(docs) + [d] && clock == old(clock) + 1
    {
      docs := docs + [d];
      clock := clock + 1;
    }

    /** Overwrites the document at `i` (`doc.save()` on a found document). */
    method Replace(i: nat, d: D)
      requires i < |docs|
      modifies this
      ensures docs == old(docs)[i := d] && clock == old(clock)
    {
      docs := docs[i := d];
    }
  }
}
