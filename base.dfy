/**
 * Small building blocks shared by the rest of the model: optional values,
 * results with an error side, and the array operations the application uses
 * (`find`, `findIndex`, `filter`, `reverse`), each specified once here.
 */
module Base {

  /** A value that may be absent (`undefined` / `null` in the application). */
  datatype Option<T> = None | Some(value: T)

  /** The outcome of a handler: a new state, or the reason it stopped early. */
  datatype Result<T, E> = Ok(value: T) | Err(error: E)

  /** The index of the first element satisfying `p`, as `Array.prototype.findIndex`. */
  function FirstIndex<T>(xs: seq<T>, p: T -> bool): (r: Option<nat>)
    ensures r.Some? ==> r.value < |xs| && p(xs[r.value])
    ensures r.Some? ==> forall j :: 0 <= j < r.value ==> !p(xs[j])
    ensures r.None? ==> forall j :: 0 <= j < |xs| ==> !p(xs[j])
  {
    if |xs| == 0 then None
    else if p(xs[0]) then Some(0)
    else
      match FirstIndex(xs[1..], p)
      case None =>
        assert forall j :: 1 <= j < |xs| ==> xs[j] == xs[1..][j - 1];
        None
      case Some(k) =>
        assert forall j :: 1 <= j < |xs| ==> xs[j] == xs[1..][j - 1];
        Some(k + 1)
  }

  /** The first index satisfying `p` is the only index that satisfies `p` and has no earlier one. */
  lemma FirstIndexUnique<T>(xs: seq<T>, p: T -> bool, i: nat)
    requires i < |xs| && p(xs[i])
    requires forall j :: 0 <= j < i ==> !p(xs[j])
    ensures FirstIndex(xs, p) == Some(i)
  {
    var r := FirstIndex(xs, p);
    if r.Some? && r.value != i {
      assert false;
    }
  }

  /** The first element satisfying `p`, as `Array.prototype.find`. */
  function Find<T>(xs: seq<T>, p: T -> bool): (r: Option<T>)
    ensures r.None? <==> forall j :: 0 <= j < |xs| ==> !p(xs[j])
    ensures r.Some? ==> p(r.value) && r.value in xs
    ensures r.Some? ==> exists i :: 0 <= i < |xs| && xs[i] == r.value && forall j :: 0 <= j < i ==> !p(xs[j])
  {
    match FirstIndex(xs, p)
    case None => None
    case Some(i) => Some(xs[i])
  }

  /** The elements satisfying `p`, in their original order, as `Array.prototype.filter`. */
  function Filter<T>(xs: seq<T>, p: T -> bool): (r: seq<T>)
    ensures |r| <= |xs|
    ensures forall k :: 0 <= k < |r| ==> p(r[k])
  {
    if |xs| == 0 then []
    else (if p(xs[0]) then [xs[0]] else []) + Filter(xs[1..], p)
  }

  /** What `Filter` keeps: elements of the input, and every element of it satisfying `p`. */
  lemma {:induction false} FilterMembers<T>(xs: seq<T>, p: T -> bool)
    ensures forall k :: 0 <= k < |Filter(xs, p)| ==> Filter(xs, p)[k] in xs
    ensures forall j :: 0 <= j < |xs| && p(xs[j]) ==> xs[j] in Filter(xs, p)
  {
    if |xs| > 0 {
      var tail := xs[1..];
      var rest := Filter(tail, p);
      FilterMembers(tail, p);
      var r := Filter(xs, p);
      assert r == (if p(xs[0]) then [xs[0]] else []) + rest;
      forall k | 0 <= k < |r| ensures r[k] in xs {
        if p(xs[0]) && k == 0 {
          assert r[k] == xs[0];
        } else {
          var m := if p(xs[0]) then k - 1 else k;
          assert r[k] == rest[m];
          var i :| 0 <= i < |tail| && tail[i] == rest[m];
          assert xs[i + 1] == r[k];
        }
      }
      forall j | 0 <= j < |xs| && p(xs[j]) ensures xs[j] in r {
        if j == 0 {
          assert r[0] == xs[0];
        } else {
          assert xs[j] == tail[j - 1];
          var i :| 0 <= i < |rest| && rest[i] == xs[j];
          assert r[|r| - |rest| + i] == xs[j];
        }
      }
    }
  }

  /** Filtering distributes over concatenation. */
  lemma {:induction false} FilterAppend<T>(xs: seq<T>, ys: seq<T>, p: T -> bool)
    ensures Filter(xs + ys, p) == Filter(xs, p) + Filter(ys, p)
  {
    if |xs| == 0 {
      assert xs + ys == ys;
    } else {
      assert (xs + ys)[1..] == xs[1..] + ys;
      FilterAppend(xs[1..], ys, p);
    }
  }

  /** Filtering by a weaker predicate first and by `p` afterwards is filtering by `p`. */
  lemma {:induction false} FilterNested<T>(xs: seq<T>, p: T -> bool, q: T -> bool)
    requires forall x :: p(x) ==> q(x)
    ensures Filter(Filter(xs, q), p) == Filter(xs, p)
  {
    if |xs| > 0 {
      FilterNested(xs[1..], p, q);
      var rest := Filter(xs[1..], q);
      if q(xs[0]) {
        assert Filter(xs, q) == [xs[0]] + rest;
        assert ([xs[0]] + rest)[1..] == rest;
      } else {
        assert Filter(xs, q) == rest;
      }
    }
  }

  /** Filtering with a predicate every element satisfies changes nothing. */
  lemma {:induction false} FilterAll<T>(xs: seq<T>, p: T -> bool)
    requires forall j :: 0 <= j < |xs| ==> p(xs[j])
    ensures Filter(xs, p) == xs
  {
    if |xs| > 0 {
      FilterAll(xs[1..], p);
      assert [xs[0]] + xs[1..] == xs;
    }
  }

  /** Filtering with a predicate no element satisfies leaves nothing. */
  lemma {:induction false} FilterNone<T>(xs: seq<T>, p: T -> bool)
    requires forall j :: 0 <= j < |xs| ==> !p(xs[j])
    ensures Filter(xs, p) == []
  {
    if |xs| > 0 {
      FilterNone(xs[1..], p);
    }
  }

  /** Filtering out exactly the element at `k` leaves the others, once each and in order. */
  lemma FilterDropsOne<T>(xs: seq<T>, k: nat, p: T -> bool)
    requires k < |xs| && !p(xs[k])
    requires forall j :: 0 <= j < |xs| && j != k ==> p(xs[j])
    ensures Filter(xs, p) == xs[..k] + xs[k + 1..]
  {
    var before, rest, after := xs[..k], xs[k..], xs[k + 1..];
    assert xs == before + rest;
    assert forall j :: 0 <= j < |before| ==> before[j] == xs[j];
    assert forall j :: 0 <= j < |after| ==> after[j] == xs[k + 1 + j];
    FilterAll(before, p);
    FilterAll(after, p);
    assert rest[0] == xs[k] && rest[1..] == after;
    assert Filter(rest, p) == after;
    FilterAppend(before, rest, p);
  }

  /** Filters by predicates that agree on every element give the same result. */
  lemma {:induction false} FilterCongruent<T>(xs: seq<T>, p: T -> bool, q: T -> bool)
    requires forall j :: 0 <= j < |xs| ==> p(xs[j]) == q(xs[j])
    ensures Filter(xs, p) == Filter(xs, q)
  {
    if |xs| > 0 {
      FilterCongruent(xs[1..], p, q);
    }
  }

  /** The sequence in reverse order, as `slice().reverse()`. */
  function Reverse<T>(xs: seq<T>): (r: seq<T>)
    ensures |r| == |xs|
    ensures forall k :: 0 <= k < |xs| ==> r[k] == xs[|xs| - 1 - k]
  {
    if |xs| == 0 then [] else Reverse(xs[1..]) + [xs[0]]
  }
}
