/** Small shared vocabulary: optional values, user identities, digits, filters and first-match lookups. */
module Common {

  /** A value that may be absent (Python's None, a nullable foreign key, a missing form field). */
  datatype Option<+T> = None | Some(value: T)

  /** Users are referred to by their primary key only. */
  type UserId = nat

  /** Truthiness of an optional text in Python: None and '' are both false. */
  predicate NonEmpty(s: Option<string>)
  {
    s.Some? && s.value != ""
  }

  /** An ASCII decimal digit (what Python's `int()` and `str()` on a column use). */
  predicate IsDigit(c: char)
  {
    '0' <= c <= '9'
  }

  /** One field of every record, in order, as `.values_list(field)` gives it. */
  function Map<S, T>(s: seq<S>, f: S -> T): (r: seq<T>)
    ensures |r| == |s| && forall i :: 0 <= i < |s| ==> r[i] == f(s[i])
  {
    seq(|s|, i requires 0 <= i < |s| => f(s[i]))
  }

  /**
   * The index of the first element satisfying `p`, as `.filter(...).first()`
   * finds it, or None when no element does.
   */
  function FirstIndex<T>(s: seq<T>, p: T -> bool): (r: Option<nat>)
    ensures r.Some? ==> r.value < |s| && p(s[r.value]) && forall j :: 0 <= j < r.value ==> !p(s[j])
    ensures r.None? ==> forall j :: 0 <= j < |s| ==> !p(s[j])
    decreases |s|
  {
    if s == [] then None
    else if p(s[0]) then Some(0)
    else match FirstIndex(s[1..], p)
      case None => None
      case Some(k) => Some(k + 1)
  }

  /**
   * The elements satisfying `p`, in order, as `.filter(...)` or a list
   * comprehension with a condition keeps them: each kept element as often
   * as it occurs, every other element not at all.
   */
  function Filter<T(!new)>(s: seq<T>, p: T -> bool): (r: seq<T>)
    ensures |r| <= |s|
    ensures forall x :: x in r <==> x in s && p(x)
    decreases |s|
  {
    if s == [] then []
    else
      assert forall x :: x in s <==> x == s[0] || x in s[1..];
      (if p(s[0]) then [s[0]] else []) + Filter(s[1..], p)
  }

  /** The filter keeps each element satisfying `p` as often as it occurs, and no other. */
  lemma {:induction false} FilterCounts<T(!new)>(s: seq<T>, p: T -> bool)
    ensures forall x :: multiset(Filter(s, p))[x] == if p(x) then multiset(s)[x] else 0
    decreases |s|
  {
    if s != [] {
      FilterCounts(s[1..], p);
      assert s == [s[0]] + s[1..];
    }
  }

  /** Filtering keeps the order: one more element at the end is kept, or not, at the end. */
  lemma {:induction false} FilterSnoc<T(!new)>(s: seq<T>, x: T, p: T -> bool)
    ensures Filter(s + [x], p) == Filter(s, p) + (if p(x) then [x] else [])
    decreases |s|
  {
    if s != [] {
      var tail := if p(x) then [x] else [];
      var head := if p(s[0]) then [s[0]] else [];
      var sx := s + [x];
      assert sx[0] == s[0] && sx[1..] == s[1..] + [x];
      calc {
        Filter(sx, p);
        (if p(sx[0]) then [sx[0]] else []) + Filter(sx[1..], p);
        head + Filter(s[1..] + [x], p);
        { FilterSnoc(s[1..], x, p); }
        head + (Filter(s[1..], p) + tail);
        (head + Filter(s[1..], p)) + tail;
        Filter(s, p) + tail;
      }
    }
  }
}
