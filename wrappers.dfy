/** Option and Result, used for the Python code's `None` returns and raised exceptions. */
module Wrappers {

  datatype Option<+T> = None | Some(value: T)

  /** `Err` stands for an exception the Python code raises (its message kept as text). */
  datatype Result<+T> = Ok(value: T) | Err(message: string)

  // ---------------------------------------------------------------------------
  // Sequences of optional values
  // ---------------------------------------------------------------------------

  /** The values present in a sequence of options, in order. */
  function Present<T>(xs: seq<Option<T>>): (r: seq<T>)
    ensures |r| <= |xs|
  {
    if xs == [] then []
    else Present(xs[..|xs| - 1]) + (if xs[|xs| - 1].Some? then [xs[|xs| - 1].value] else [])
  }

  /** The last value present, or `dflt` when there is none. */
  function LastPresent<T>(xs: seq<Option<T>>, dflt: T): T {
    if xs == [] then dflt
    else if xs[|xs| - 1].Some? then xs[|xs| - 1].value
    else LastPresent(xs[..|xs| - 1], dflt)
  }

  /** Present values distribute over concatenation. */
  lemma {:induction false} PresentAppend<T>(a: seq<Option<T>>, b: seq<Option<T>>)
    ensures Present(a + b) == Present(a) + Present(b)
    decreases |b|
  {
    if b == [] {
      assert a + b == a;
    } else {
      var ab := a + b;
      var b' := b[..|b| - 1];
      assert ab[..|ab| - 1] == a + b';
      assert ab[|ab| - 1] == b[|b| - 1];
      PresentAppend(a, b');
    }
  }

  /** A sequence around one of its positions. */
  lemma SplitAround<T>(xs: seq<T>, i: nat)
    requires i < |xs|
    ensures xs == (xs[..i] + [xs[i]]) + xs[i + 1..]
  {
    assert forall k :: 0 <= k < |xs| ==> xs[k] == ((xs[..i] + [xs[i]]) + xs[i + 1..])[k];
  }

  lemma PresentOfNone<T>(x: Option<T>)
    requires x.None?
    ensures Present([x]) == []
  {
    assert [x][..0] == [];
  }

  /** An absent entry can be dropped without changing what is present. */
  lemma PresentWithout<T>(xs: seq<Option<T>>, i: nat)
    requires i < |xs| && xs[i].None?
    ensures Present(xs) == Present(xs[..i] + xs[i + 1..])
  {
    var pre, x, post := xs[..i], xs[i], xs[i + 1..];
    var head := pre + [x];
    SplitAround(xs, i);
    assert xs == head + post;
    PresentAppend(head, post);
    PresentAppend(pre, [x]);
    PresentOfNone(x);
    assert Present(head) == Present(pre) + [];
    assert Present(head) == Present(pre);
    PresentAppend(pre, post);
  }

  /** The last value present wins. */
  lemma {:induction false} LastPresentIs<T>(xs: seq<Option<T>>, dflt: T, i: nat)
    requires i < |xs| && xs[i].Some?
    requires forall j :: i < j < |xs| ==> xs[j].None?
    ensures LastPresent(xs, dflt) == xs[i].value
  {
    if i < |xs| - 1 {
      var prefix := xs[..|xs| - 1];
      assert prefix[i] == xs[i];
      assert forall j :: i < j < |prefix| ==> prefix[j] == xs[j];
      LastPresentIs(prefix, dflt, i);
    }
  }

  /** With nothing present the default stays. */
  lemma {:induction false} LastPresentDefault<T>(xs: seq<Option<T>>, dflt: T)
    requires forall j :: 0 <= j < |xs| ==> xs[j].None?
    ensures LastPresent(xs, dflt) == dflt
  {
    if xs != [] {
      var prefix := xs[..|xs| - 1];
      assert forall j :: 0 <= j < |prefix| ==> prefix[j] == xs[j];
      LastPresentDefault(prefix, dflt);
    }
  }

  /** Present values of a prefix grow by the next entry. */
  lemma PresentStep<T>(xs: seq<Option<T>>, k: nat)
    requires k < |xs|
    ensures Present(xs[..k + 1]) == Present(xs[..k]) + (if xs[k].Some? then [xs[k].value] else [])
  {
    assert xs[..k + 1][..k] == xs[..k];
  }

  /** Every value present comes from an entry of the list, and every entry's value is present. */
  lemma {:induction false} PresentMembers<T>(xs: seq<Option<T>>)
    ensures forall x :: x in Present(xs) <==> Some(x) in xs
  {
    if xs != [] {
      var pre := xs[..|xs| - 1];
      PresentMembers(pre);
      assert xs == pre + [xs[|xs| - 1]];
    }
  }
}
