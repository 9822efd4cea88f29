/** Value types shared by the three components, and the list filter their counters use. */
module Common {

  /** A value that may be absent: an optional field, or a state variable that may be `null`. */
  datatype Option<+T> = None | Some(value: T)

  /** What one call into the remote API came back with: a success carrying the record the
      server returned, a `{ success: false, message }` answer, or an exception thrown by the
      call (network failure, malformed response). */
  datatype Reply<+T> = Ok(value: T) | Rejected(message: string) | Thrown

  /** `s.filter(p)`: the elements of `s` that satisfy `p`, in their original order. */
  function Filter<T>(s: seq<T>, p: T -> bool): (r: seq<T>)
    ensures |r| <= |s|
    ensures forall x :: x in r ==> x in s && p(x)
  {
    if s == [] then []
    else if p(s[0]) then [s[0]] + Filter(s[1..], p)
    else Filter(s[1..], p)
  }

  /** The filter keeps every element that satisfies the predicate, as often as it occurs,
      and drops every other one. */
  lemma {:induction false} FilterKeepsEveryMatch<T>(s: seq<T>, p: T -> bool)
    ensures forall x :: multiset(Filter(s, p))[x] == if p(x) then multiset(s)[x] else 0
  {
    if s != [] {
      FilterKeepsEveryMatch(s[1..], p);
      assert s == [s[0]] + s[1..];
    }
  }

  /** The filter keeps every element exactly when every element satisfies the predicate. */
  lemma {:induction false} FilterKeepsAll<T>(s: seq<T>, p: T -> bool)
    ensures |Filter(s, p)| == |s| <==> forall i :: 0 <= i < |s| ==> p(s[i])
  {
    if s != [] {
      FilterKeepsAll(s[1..], p);
      assert forall i :: 1 <= i < |s| ==> s[i] == s[1..][i - 1];
    }
  }

  /** Filtering by a predicate and by its negation splits the sequence in two. */
  lemma {:induction false} FilterComplement<T>(s: seq<T>, p: T -> bool, q: T -> bool)
    requires forall x :: q(x) == !p(x)
    ensures |Filter(s, p)| + |Filter(s, q)| == |s|
  {
    if s != [] {
      FilterComplement(s[1..], p, q);
    }
  }
}
