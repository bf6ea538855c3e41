/**
 * The `ImmutableList<T>` operations the user record relies on, over a
 * value equality given as a function: `Replace` finds the first element
 * equal to the old value and throws `ArgumentException` when there is none;
 * `Find` returns the first element that satisfies a predicate; `RemoveAll`
 * drops every element that satisfies it.
 */
module ImmutableLists {
  import opened Wrappers

  /** The position of the first element of `s` that `eq` calls equal to `x`. */
  function IndexOf<T>(s: seq<T>, x: T, eq: (T, T) -> bool): (r: Option<nat>)
    ensures r.Some? ==> r.value < |s| && eq(s[r.value], x) && forall j :: 0 <= j < r.value ==> !eq(s[j], x)
    ensures r.None? ==> forall j :: 0 <= j < |s| ==> !eq(s[j], x)
  {
    if |s| == 0 then None
    else if eq(s[0], x) then Some(0)
    else match IndexOf(s[1..], x, eq)
      case None => None
      case Some(i) => Some(i + 1)
  }

  /** The exception `Replace` throws when the old value is missing. */
  const OldValueMissing: Exception := ArgumentException(None, Some("oldValue"))

  /** `Replace(oldValue, newValue)`: the first element equal to `x` becomes `y`. */
  function Replace<T>(s: seq<T>, x: T, y: T, eq: (T, T) -> bool): (r: Result<seq<T>>)
    ensures r.Failure? <==> forall j :: 0 <= j < |s| ==> !eq(s[j], x)
    ensures r.Failure? ==> r.error == OldValueMissing
    ensures r.Success? ==> |r.value| == |s|
  {
    match IndexOf(s, x, eq)
    case None => Failure(OldValueMissing)
    case Some(i) => Success(s[i := y])
  }

  /** When position `i` holds the first element equal to `x`, `Replace` updates exactly that position. */
  lemma ReplaceAt<T>(s: seq<T>, i: int, x: T, y: T, eq: (T, T) -> bool)
    requires 0 <= i < |s| && eq(s[i], x)
    requires forall j :: 0 <= j < i ==> !eq(s[j], x)
    ensures Replace(s, x, y, eq) == Success(s[i := y])
  {
  }

  /** `Find(match)`: the first element satisfying `p`, or null. */
  function Find<T>(s: seq<T>, p: T -> bool): (r: Option<nat>)
    ensures r.Some? ==> r.value < |s| && p(s[r.value]) && forall j :: 0 <= j < r.value ==> !p(s[j])
    ensures r.None? ==> forall j :: 0 <= j < |s| ==> !p(s[j])
  {
    if |s| == 0 then None
    else if p(s[0]) then Some(0)
    else match Find(s[1..], p)
      case None => None
      case Some(i) => Some(i + 1)
  }

  /** `RemoveAll(match)`: the elements not satisfying `p`, in their order. */
  function RemoveAll<T(!new)>(s: seq<T>, p: T -> bool): (r: seq<T>)
    ensures |r| <= |s|
    ensures forall x :: x in r <==> x in s && !p(x)
  {
    if |s| == 0 then []
    else (if p(s[0]) then [] else [s[0]]) + RemoveAll(s[1..], p)
  }

  /** Removing elements nobody matches changes nothing. */
  lemma {:induction false} RemoveAllNone<T(!new)>(s: seq<T>, p: T -> bool)
    requires forall j :: 0 <= j < |s| ==> !p(s[j])
    ensures RemoveAll(s, p) == s
  {
    if |s| > 0 {
      assert forall j :: 0 <= j < |s[1..]| ==> !p(s[1..][j]) by {
        forall j | 0 <= j < |s[1..]| ensures !p(s[1..][j]) {
          assert s[1..][j] == s[j + 1];
        }
      }
      RemoveAllNone(s[1..], p);
      assert s == [s[0]] + s[1..];
    }
  }

  /** Removing twice is removing once. */
  lemma {:induction false} RemoveAllIdempotent<T(!new)>(s: seq<T>, p: T -> bool)
    ensures RemoveAll(RemoveAll(s, p), p) == RemoveAll(s, p)
  {
    if |s| > 0 {
      RemoveAllIdempotent(s[1..], p);
      var tail := RemoveAll(s[1..], p);
      if !p(s[0]) {
        var r := [s[0]] + tail;
        assert r[0] == s[0] && r[1..] == tail;
        assert RemoveAll(r, p) == [s[0]] + RemoveAll(tail, p);
      } else {
        assert RemoveAll(s, p) == tail;
      }
    }
  }
}
