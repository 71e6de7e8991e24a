/**
 * Values shared by every part of the model: optional request fields with
 * JavaScript truthiness, HTTP-style responses of the route handlers, and
 * the list operations (`filter`, `reduce`) the pages use.
 */
module Common {

  /** A request field or document field that may be absent (undefined or null). */
  datatype Option<T> = None | Some(value: T)

  // ---------------------------------------------------------------------
  // JavaScript truthiness of optional fields
  // ---------------------------------------------------------------------

  /** A string is truthy when present and non-empty. */
  predicate StrTruthy(o: Option<string>) { o.Some? && o.value != "" }

  /** A number is truthy when present and non-zero (NaN is not modelled). */
  predicate IntTruthy(o: Option<int>) { o.Some? && o.value != 0 }

  predicate RealTruthy(o: Option<real>) { o.Some? && o.value != 0.0 }

  predicate BoolTruthy(o: Option<bool>) { o.Some? && o.value }

  /** `a || b` for a string field and a string fallback. */
  function StrOr(a: Option<string>, b: string): (r: string)
    ensures StrTruthy(a) ==> r == a.value
    ensures !StrTruthy(a) ==> r == b
  {
    if StrTruthy(a) then a.value else b
  }

  /** `a || b` where the fallback may itself be absent. */
  function OptStrOr(a: Option<string>, b: Option<string>): (r: Option<string>)
    ensures StrTruthy(a) ==> r == a
    ensures !StrTruthy(a) ==> r == b
  {
    if StrTruthy(a) then a else b
  }

  function OptIntOr(a: Option<int>, b: Option<int>): (r: Option<int>)
    ensures IntTruthy(a) ==> r == a
    ensures !IntTruthy(a) ==> r == b
  {
    if IntTruthy(a) then a else b
  }

  function IntOr(a: Option<int>, b: int): (r: int)
    ensures IntTruthy(a) ==> r == a.value
    ensures !IntTruthy(a) ==> r == b
  {
    if IntTruthy(a) then a.value else b
  }

  function RealOr(a: Option<real>, b: real): (r: real)
    ensures RealTruthy(a) ==> r == a.value
    ensures !RealTruthy(a) ==> r == b
  {
    if RealTruthy(a) then a.value else b
  }

  // ---------------------------------------------------------------------
  // The process environment
  // ---------------------------------------------------------------------

  /** Environment variables by name. */
  type Env = map<string, string>

  /** `process.env[name]`: None when the variable is not set. */
  function EnvGet(env: Env, name: string): (r: Option<string>)
    ensures r.Some? <==> name in env
    ensures r.Some? ==> r.value == env[name]
  {
    if name in env then Some(env[name]) else None
  }

  // ---------------------------------------------------------------------
  // Responses of the route handlers
  // ---------------------------------------------------------------------

  /** Errors the document store raises (surfaced by the handlers as 500). */
  datatype DbError =
    | ValidationFailed   // a schema rule (required, enum, maxlength) failed
    | CastFailed         // a value could not be cast to the schema type (NaN)
    | DuplicateKey       // a unique index would be violated

  datatype ErrorBody = Message(text: string) | Store(cause: DbError)

  /** A JSON response: 200 with a body, or an error status with an error body. */
  datatype Response<T> = Ok(body: T) | Err(status: int, error: ErrorBody)

  const MissingFieldsText := "Missing required fields"

  function MissingFields<T>(): Response<T> { Err(400, Message(MissingFieldsText)) }

  // ---------------------------------------------------------------------
  // Array.prototype.filter and subsequences
  // ---------------------------------------------------------------------

  /** `s.filter(p)`: the elements satisfying `p`, in their original order. */
  function Filter<T>(s: seq<T>, p: T -> bool): (r: seq<T>)
    ensures |r| <= |s|
    ensures forall i :: 0 <= i < |r| ==> r[i] in s && p(r[i])
    ensures forall i :: 0 <= i < |s| && p(s[i]) ==> s[i] in r
  {
    if s == [] then []
    else (if p(s[0]) then [s[0]] else []) + Filter(s[1..], p)
  }

  /** `r` can be obtained from `s` by deleting elements. */
  predicate SubsequenceOf<T(==)>(r: seq<T>, s: seq<T>)
    decreases |s|
  {
    if r == [] then true
    else if s == [] then false
    else (r[0] == s[0] && SubsequenceOf(r[1..], s[1..])) || SubsequenceOf(r, s[1..])
  }

  lemma {:induction false} FilterIsSubsequence<T>(s: seq<T>, p: T -> bool)
    ensures SubsequenceOf(Filter(s, p), s)
  {
    if s != [] {
      FilterIsSubsequence(s[1..], p);
      var rest := Filter(s[1..], p);
      if p(s[0]) {
        assert Filter(s, p) == [s[0]] + rest;
        assert ([s[0]] + rest)[1..] == rest;
      } else {
        assert Filter(s, p) == rest;
        if rest != [] {
          assert SubsequenceOf(rest, s[1..]);
        }
      }
    }
  }

  lemma {:induction false} FilterAppend<T>(a: seq<T>, b: seq<T>, p: T -> bool)
    ensures Filter(a + b, p) == Filter(a, p) + Filter(b, p)
  {
    if a == [] {
      assert a + b == b;
    } else {
      assert (a + b)[1..] == a[1..] + b;
      FilterAppend(a[1..], b, p);
    }
  }

  /** Filters that agree on every element of `s` select the same elements. */
  lemma {:induction false} FilterSameFilter<T>(s: seq<T>, p: T -> bool, q: T -> bool)
    requires forall i :: 0 <= i < |s| ==> p(s[i]) == q(s[i])
    ensures Filter(s, p) == Filter(s, q)
  {
    if s != [] {
      FilterSameFilter(s[1..], p, q);
    }
  }

  // ---------------------------------------------------------------------
  // Array.prototype.reduce((sum, x) => sum + f(x), 0)
  // ---------------------------------------------------------------------

  function SumInt<T>(s: seq<T>, f: T -> int): int
  {
    if s == [] then 0 else f(s[0]) + SumInt(s[1..], f)
  }

  function SumReal<T>(s: seq<T>, f: T -> real): real
  {
    if s == [] then 0.0 else f(s[0]) + SumReal(s[1..], f)
  }

  lemma {:induction false} SumIntAppend<T>(a: seq<T>, b: seq<T>, f: T -> int)
    ensures SumInt(a + b, f) == SumInt(a, f) + SumInt(b, f)
  {
    if a == [] {
      assert a + b == b;
    } else {
      assert (a + b)[1..] == a[1..] + b;
      SumIntAppend(a[1..], b, f);
    }
  }

  lemma {:induction false} SumRealAppend<T>(a: seq<T>, b: seq<T>, f: T -> real)
    ensures SumReal(a + b, f) == SumReal(a, f) + SumReal(b, f)
  {
    if a == [] {
      assert a + b == b;
    } else {
      assert (a + b)[1..] == a[1..] + b;
      SumRealAppend(a[1..], b, f);
    }
  }

  /** A one-element list sums to its element's value. */
  lemma SumIntOfOne<T>(s: seq<T>, f: T -> int)
    requires |s| == 1
    ensures SumInt(s, f) == f(s[0])
  {
    assert s[1..] == [];
  }

  lemma SumRealOfOne<T>(s: seq<T>, f: T -> real)
    requires |s| == 1
    ensures SumReal(s, f) == f(s[0])
  {
    assert s[1..] == [];
  }

  /** The filter that keeps what `p` drops. */
  function Negate<T>(p: T -> bool): T -> bool
  {
    (x: T) => !p(x)
  }

  /** A sum splits over the elements a filter keeps and those it drops. */
  lemma {:induction false} SumIntFilterSplit<T>(s: seq<T>, p: T -> bool, f: T -> int)
    ensures SumInt(Filter(s, p), f) + SumInt(Filter(s, Negate(p)), f) == SumInt(s, f)
  {
    if s != [] {
      SumIntFilterSplit(s[1..], p, f);
      var keep := Filter(s[1..], p);
      var drop := Filter(s[1..], Negate(p));
      if p(s[0]) {
        assert Filter(s, p) == [s[0]] + keep;
        assert ([s[0]] + keep)[1..] == keep;
        assert Filter(s, Negate(p)) == drop;
      } else {
        assert Filter(s, p) == keep;
        assert Filter(s, Negate(p)) == [s[0]] + drop;
        assert ([s[0]] + drop)[1..] == drop;
      }
    }
  }
}
