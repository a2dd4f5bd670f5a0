/** The optional value used wherever a Python call returns None or raises. */
module Wrappers {

  datatype Option<+T> = None | Some(value: T)

  /**
   * Applies a step that may fail to every element in order: all the results,
   * or None as soon as one element fails (the loop raising out of the batch).
   */
  function MapAll<A, B>(f: A -> Option<B>, xs: seq<A>): (r: Option<seq<B>>)
    ensures r.Some? <==> forall i | 0 <= i < |xs| :: f(xs[i]).Some?
    ensures r.Some? ==> |r.value| == |xs| && forall i | 0 <= i < |xs| :: f(xs[i]) == Some(r.value[i])
  {
    if xs == [] then Some([])
    else
      var init := xs[..|xs| - 1];
      assert forall i | 0 <= i < |init| :: init[i] == xs[i];
      match MapAll(f, init)
      case None => None
      case Some(done) =>
        match f(xs[|xs| - 1])
        case None => None
        case Some(last) => Some(done + [last])
  }

  /** Mapping a concatenation maps each part. */
  lemma {:induction false} MapAllAppend<A, B>(f: A -> Option<B>, a: seq<A>, b: seq<A>)
    ensures MapAll(f, a + b) ==
      if MapAll(f, a).Some? && MapAll(f, b).Some? then Some(MapAll(f, a).value + MapAll(f, b).value) else None
    decreases |b|
  {
    if b == [] {
      assert a + b == a;
      assert MapAll(f, b) == Some([]);
      if MapAll(f, a).Some? {
        assert MapAll(f, a).value + [] == MapAll(f, a).value;
      }
    } else {
      var b' := b[..|b| - 1];
      assert (a + b)[..|a + b| - 1] == a + b';
      assert (a + b)[|a + b| - 1] == b[|b| - 1];
      MapAllAppend(f, a, b');
      if MapAll(f, a).Some? && MapAll(f, b').Some? && f(b[|b| - 1]).Some? {
        var x, y, z := MapAll(f, a).value, MapAll(f, b').value, f(b[|b| - 1]).value;
        assert x + y + [z] == x + (y + [z]);
      }
    }
  }

  /** One more element: the prefix's results extended by that element's, if both succeed. */
  lemma MapAllSnoc<A, B>(f: A -> Option<B>, xs: seq<A>, i: int)
    requires 0 <= i < |xs|
    ensures MapAll(f, xs[..i + 1]) ==
      if MapAll(f, xs[..i]).Some? && f(xs[i]).Some? then Some(MapAll(f, xs[..i]).value + [f(xs[i]).value]) else None
  {
    assert xs[..i + 1][..i] == xs[..i];
    assert xs[..i + 1][i] == xs[i];
  }
}
