/** Optional values, as Python's `None`-or-value, and the "keep the present
    ones" filter that the rule evaluators and the field validator share. */
module Wrappers {

  datatype Option<+T> = None | Some(value: T)

  /** The present values of `xs`, in order (a list comprehension
      `[x for x in xs if x is not None]`). Defined on the last element so that
      a left-to-right loop extends it one step at a time. */
  function Somes<T>(xs: seq<Option<T>>): seq<T>
  {
    if |xs| == 0 then []
    else
      var init := Somes(xs[..|xs| - 1]);
      match xs[|xs| - 1]
      case Some(v) => init + [v]
      case None => init
  }

  /** Every kept value comes from some position of the input, and no value
      is invented: `Somes` never grows the list. */
  lemma {:induction false} SomesSound<T>(xs: seq<Option<T>>)
    ensures |Somes(xs)| <= |xs|
    ensures forall k :: 0 <= k < |Somes(xs)| ==>
              exists j :: 0 <= j < |xs| && xs[j] == Some(Somes(xs)[k])
  {
    if |xs| > 0 {
      var init := xs[..|xs| - 1];
      SomesSound(init);
      forall k | 0 <= k < |Somes(xs)|
        ensures exists j :: 0 <= j < |xs| && xs[j] == Some(Somes(xs)[k])
      {
        if k < |Somes(init)| {
          var j :| 0 <= j < |init| && init[j] == Some(Somes(init)[k]);
          assert xs[j] == init[j];
        } else {
          assert xs[|xs| - 1] == Some(Somes(xs)[k]);
        }
      }
    }
  }

  /** Nothing is dropped either: every present value of the input is kept. */
  lemma {:induction false} SomesComplete<T>(xs: seq<Option<T>>, j: nat)
    requires j < |xs| && xs[j].Some?
    ensures xs[j].value in Somes(xs)
  {
    var init := xs[..|xs| - 1];
    if j < |xs| - 1 {
      assert init[j] == xs[j];
      SomesComplete(init, j);
    }
  }

  /** `Somes` is empty exactly when every entry is absent. */
  lemma {:induction false} SomesEmpty<T>(xs: seq<Option<T>>)
    ensures |Somes(xs)| == 0 <==> forall j :: 0 <= j < |xs| ==> xs[j].None?
  {
    if |xs| > 0 {
      var init := xs[..|xs| - 1];
      SomesEmpty(init);
      assert forall j :: 0 <= j < |init| ==> init[j] == xs[j];
    }
  }

  /** Filtering distributes over concatenation. */
  lemma {:induction false} SomesAppend<T>(a: seq<Option<T>>, b: seq<Option<T>>)
    ensures Somes(a + b) == Somes(a) + Somes(b)
  {
    if |b| == 0 {
      assert a + b == a;
    } else {
      var init := b[..|b| - 1];
      SomesAppend(a, init);
      assert (a + b)[..|a + b| - 1] == a + init;
      assert (a + b)[|a + b| - 1] == b[|b| - 1];
    }
  }

  /** When every entry is present, nothing is filtered out. */
  lemma {:induction false} SomesAllPresent<T>(xs: seq<Option<T>>)
    requires forall j :: 0 <= j < |xs| ==> xs[j].Some?
    ensures |Somes(xs)| == |xs|
    ensures forall j :: 0 <= j < |xs| ==> Somes(xs)[j] == xs[j].value
  {
    if |xs| > 0 {
      var init := xs[..|xs| - 1];
      SomesAllPresent(init);
    }
  }
}
