/** Python's `None`-or-value, and the filter that keeps the present values
    of a list of optional results in order. */
module Options {

  datatype Option<+T> = None | Some(value: T)

  /** The present values of `ps[from..]`, in order. */
  function Values<T>(ps: seq<Option<T>>, from: nat): (vs: seq<T>)
    ensures from <= |ps| ==> |vs| <= |ps| - from
    decreases |ps| - from
  {
    if from >= |ps| then []
    else
      var rest := Values(ps, from + 1);
      if ps[from].Some? then [ps[from].value] + rest else rest
  }

  /** The indices of `ps[from..]` holding a value, in increasing order. */
  ghost function Present<T>(ps: seq<Option<T>>, from: nat): seq<nat>
    decreases |ps| - from
  {
    if from >= |ps| then []
    else
      var rest := Present(ps, from + 1);
      if ps[from].Some? then [from] + rest else rest
  }

  predicate Increasing(xs: seq<nat>) {
    forall i, j :: 0 <= i < j < |xs| ==> xs[i] < xs[j]
  }

  /** `Present` lists, in increasing order, exactly the indices from `from`
      onwards that hold a value. */
  lemma {:induction false} PresentInOrder<T>(ps: seq<Option<T>>, from: nat)
    ensures Increasing(Present(ps, from))
    ensures forall k :: 0 <= k < |Present(ps, from)| ==>
              from <= Present(ps, from)[k] < |ps| && ps[Present(ps, from)[k]].Some?
    ensures forall i :: from <= i < |ps| && ps[i].Some? ==> i in Present(ps, from)
    decreases |ps| - from
  {
    if from < |ps| {
      PresentInOrder(ps, from + 1);
    }
  }

  /** The k-th kept value is the one at the k-th present index. */
  lemma {:induction false} ValuesAtPresent<T>(ps: seq<Option<T>>, from: nat)
    ensures |Present(ps, from)| == |Values(ps, from)|
    ensures forall k :: 0 <= k < |Values(ps, from)| ==>
              Present(ps, from)[k] < |ps| && ps[Present(ps, from)[k]] == Some(Values(ps, from)[k])
    decreases |ps| - from
  {
    if from < |ps| {
      ValuesAtPresent(ps, from + 1);
    }
  }

  /** A value is kept exactly when some index from `from` onwards holds it. */
  lemma {:induction false} ValuesMembers<T>(ps: seq<Option<T>>, from: nat)
    ensures forall v :: v in Values(ps, from) <==> exists i :: from <= i < |ps| && ps[i] == Some(v)
    decreases |ps| - from
  {
    if from < |ps| {
      ValuesMembers(ps, from + 1);
      var rest := Values(ps, from + 1);
      forall v
        ensures v in Values(ps, from) <==> exists i :: from <= i < |ps| && ps[i] == Some(v)
      {
        if v in rest {
          var i :| from + 1 <= i < |ps| && ps[i] == Some(v);
        }
        if exists i :: from <= i < |ps| && ps[i] == Some(v) {
          var i :| from <= i < |ps| && ps[i] == Some(v);
          if i > from {
            assert v in rest;
          }
        }
      }
    }
  }

  /** Filtering distributes over concatenation. */
  lemma {:induction false} ValuesAppend<T>(a: seq<Option<T>>, b: seq<Option<T>>, from: nat)
    requires from <= |a|
    ensures Values(a + b, from) == Values(a, from) + Values(b, 0)
    decreases |a| - from
  {
    if from < |a| {
      ValuesAppend(a, b, from + 1);
      assert (a + b)[from] == a[from];
    } else {
      ValuesShift(a, b, 0);
    }
  }

  /** Past the end of `a`, filtering `a + b` is filtering `b`. */
  lemma {:induction false} ValuesShift<T>(a: seq<Option<T>>, b: seq<Option<T>>, from: nat)
    requires from <= |b|
    ensures Values(a + b, |a| + from) == Values(b, from)
    decreases |b| - from
  {
    if from < |b| {
      ValuesShift(a, b, from + 1);
      assert (a + b)[|a| + from] == b[from];
    }
  }
}
