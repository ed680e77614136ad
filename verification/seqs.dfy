/** Filtering a sequence of per-item outcomes the way the source's loops do:
    each item is either dropped (`continue`) or appended (`push_back`), and
    the survivors keep their relative order. */
module Seqs {
  import opened Wrappers

  /** The `Some` values of `rs`, in order. */
  function Collect<T>(rs: seq<Option<T>>): (out: seq<T>)
    ensures |out| <= |rs|
    ensures forall k :: 0 <= k < |out| ==> Some(out[k]) in rs
    ensures (forall i :: 0 <= i < |rs| ==> rs[i].Some?) ==> |out| == |rs|
    ensures (forall i :: 0 <= i < |rs| ==> rs[i].None?) ==> out == []
  {
    if rs == [] then []
    else
      var init := Collect(rs[..|rs| - 1]);
      assert forall k :: 0 <= k < |init| ==> Some(init[k]) in rs[..|rs| - 1];
      match rs[|rs| - 1]
      case None => init
      case Some(v) => init + [v]
  }

  /** The positions of the `Some` values of `rs`: `Collect(rs)[k]` came from
      position `Kept(rs)[k]` and positions increase. */
  function Kept<T>(rs: seq<Option<T>>): (ks: seq<nat>)
    ensures |ks| == |Collect(rs)|
    ensures forall k :: 0 <= k < |ks| ==> ks[k] < |rs| && rs[ks[k]] == Some(Collect(rs)[k])
    ensures forall k, l :: 0 <= k < l < |ks| ==> ks[k] < ks[l]
  {
    if rs == [] then []
    else
      var pre := rs[..|rs| - 1];
      var init := Kept(pre);
      assert Collect(rs) == (if rs[|rs| - 1].Some? then Collect(pre) + [rs[|rs| - 1].value] else Collect(pre));
      assert forall k :: 0 <= k < |init| ==> rs[init[k]] == pre[init[k]];
      assert forall i :: 0 <= i < |rs| - 1 && rs[i].Some? ==> pre[i].Some?;
      match rs[|rs| - 1]
      case None => init
      case Some(v) =>
        var ks := init + [|rs| - 1];
        assert forall k :: 0 <= k < |init| ==> ks[k] == init[k] && ks[k] < |rs| - 1;
        ks
  }

  /** No `Some` is lost: every position holding one is among `Kept(rs)`. */
  lemma {:induction false} KeptIsComplete<T>(rs: seq<Option<T>>, i: nat)
    requires i < |rs| && rs[i].Some?
    ensures i in Kept(rs)
  {
    var pre := rs[..|rs| - 1];
    if i < |rs| - 1 {
      KeptIsComplete(pre, i);
      assert Kept(rs) == (if rs[|rs| - 1].Some? then Kept(pre) + [|rs| - 1] else Kept(pre));
    }
  }

  /** When every outcome is a `Some`, nothing is dropped. */
  lemma {:induction false} CollectAllSome<T>(rs: seq<Option<T>>, xs: seq<T>)
    requires |rs| == |xs|
    requires forall i :: 0 <= i < |rs| ==> rs[i] == Some(xs[i])
    ensures Collect(rs) == xs
  {
    if rs != [] {
      CollectAllSome(rs[..|rs| - 1], xs[..|xs| - 1]);
      assert xs == xs[..|xs| - 1] + [xs[|xs| - 1]];
    }
  }
}
