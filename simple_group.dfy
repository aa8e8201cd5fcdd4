/** `SimpleGroup` (src/groups/simple_group.rs): a list of shapes that
    `push` grows at the end, and whose `intersect` scans the list keeping
    the nearest hit so far. */
module Groups {
  import opened Wrappers
  import opened Rays
  import opened Hits
  import opened Shapes

  /** One step of the scan: a new hit replaces the kept one only when
      there is none yet or it is strictly nearer. The result is one of the
      two, is none only when both are, is no farther than either, and on a
      tie is the kept one. */
  function Closer(kept: Option<Hit>, candidate: Option<Hit>): (r: Option<Hit>)
    ensures r == kept || r == candidate
    ensures r.None? <==> kept.None? && candidate.None?
    ensures r.Some? && kept.Some? ==> r.value.distance <= kept.value.distance
    ensures r.Some? && candidate.Some? ==> r.value.distance <= candidate.value.distance
    ensures kept.Some? && candidate.Some? && kept.value.distance <= candidate.value.distance ==> r == kept
  {
    match candidate
    case None => kept
    case Some(h) => if kept.None? || h.distance < kept.value.distance then candidate else kept
  }

  /** What the scan keeps after visiting `list` in order: the reference
      definition of the group's `intersect`. It misses exactly when every
      member misses, and a hit it keeps lies strictly inside the ray
      interval at `at(distance)`. */
  function Nearest(list: seq<Shape>, ray: Ray): (r: Option<Hit>)
    ensures r.None? <==> forall i :: 0 <= i < |list| ==> list[i].Intersect(ray).None?
    ensures r.Some? ==> ray.minDistance < r.value.distance < ray.maxDistance && r.value.point == ray.At(r.value.distance)
  {
    if |list| == 0 then None
    else
      var prefix := list[..|list| - 1];
      assert forall i :: 0 <= i < |prefix| ==> prefix[i] == list[i];
      Closer(Nearest(prefix, ray), list[|list| - 1].Intersect(ray))
  }

  class SimpleGroup {
    var list: seq<Shape>

    /** `SimpleGroup::new`: an empty list. */
    constructor ()
      ensures list == []
    {
      list := [];
    }

    /** `push`: the item goes last; the members before it and their order
        are kept. */
    method Push(item: Shape)
      modifies this
      ensures list == old(list) + [item]
    {
      list := list + [item];
    }

    /** `intersect`: the loop of the source, proved to compute `Nearest`. */
    method Intersect(ray: Ray) returns (hit: Option<Hit>)
      ensures hit == Nearest(list, ray)
    {
      hit := None;
      for i := 0 to |list|
        invariant hit == Nearest(list[..i], ray)
      {
        assert list[..i + 1][..i] == list[..i];
        var newHit := list[i].Intersect(ray);
        if newHit.Some? {
          if hit.Some? {
            if newHit.value.distance < hit.value.distance {
              hit := newHit;
            }
          } else {
            hit := newHit;
          }
        }
      }
      assert list[..|list|] == list;
    }

    /** `does_intersect`: whether `intersect` reports a hit. */
    method DoesIntersect(ray: Ray) returns (b: bool)
      ensures b <==> Nearest(list, ray).Some?
    {
      var hit := Intersect(ray);
      b := hit.Some?;
    }
  }

  // ---------------------------------------------------------------------
  // Properties of the nearest-hit scan

  /** The empty group never reports a hit. */
  lemma EmptyMisses(ray: Ray)
    ensures Nearest([], ray) == None
  {
  }

  /** No member has a hit nearer than the reported one. */
  lemma {:induction false} NearestIsMinimal(list: seq<Shape>, ray: Ray)
    requires Nearest(list, ray).Some?
    ensures forall j :: 0 <= j < |list| && list[j].Intersect(ray).Some? ==>
              Nearest(list, ray).value.distance <= list[j].Intersect(ray).value.distance
  {
    var n := |list|;
    var prefix := list[..n - 1];
    var kept := Nearest(prefix, ray);
    assert forall j :: 0 <= j < n - 1 ==> prefix[j] == list[j];
    if kept.Some? {
      NearestIsMinimal(prefix, ray);
    }
  }

  /** A reported hit is one member's hit, and no member before that one
      has a hit at the same or a smaller distance: ties go to the earliest
      member. */
  lemma {:induction false} NearestIsEarliest(list: seq<Shape>, ray: Ray)
    requires Nearest(list, ray).Some?
    ensures exists i :: 0 <= i < |list| && list[i].Intersect(ray) == Nearest(list, ray)
              && forall j :: 0 <= j < i && list[j].Intersect(ray).Some? ==>
                   Nearest(list, ray).value.distance < list[j].Intersect(ray).value.distance
    decreases |list|, 1
  {
    var n := |list|;
    var kept := Nearest(list[..n - 1], ray);
    var last := list[n - 1].Intersect(ray);
    if kept.None? || (last.Some? && last.value.distance < kept.value.distance) {
      LastIsEarliest(list, ray);
      assert list[n - 1].Intersect(ray) == Nearest(list, ray);
    } else {
      KeptIsEarliest(list, ray);
    }
  }

  /** When the kept hit stays, the member that reported it in the prefix
      is still the earliest. */
  lemma {:induction false} KeptIsEarliest(list: seq<Shape>, ray: Ray)
    requires Nearest(list, ray).Some?
    requires Nearest(list[..|list| - 1], ray).Some?
    requires list[|list| - 1].Intersect(ray).None?
             || Nearest(list[..|list| - 1], ray).value.distance <= list[|list| - 1].Intersect(ray).value.distance
    ensures exists i :: 0 <= i < |list| && list[i].Intersect(ray) == Nearest(list, ray)
              && forall j :: 0 <= j < i && list[j].Intersect(ray).Some? ==>
                   Nearest(list, ray).value.distance < list[j].Intersect(ray).value.distance
    decreases |list|, 0
  {
    var prefix := list[..|list| - 1];
    var kept := Nearest(prefix, ray);
    assert forall j :: 0 <= j < |prefix| ==> prefix[j] == list[j];
    assert Nearest(list, ray) == kept;
    NearestIsEarliest(prefix, ray);
    var i :| 0 <= i < |prefix| && prefix[i].Intersect(ray) == kept
               && forall j :: 0 <= j < i && prefix[j].Intersect(ray).Some? ==>
                    kept.value.distance < prefix[j].Intersect(ray).value.distance;
    assert list[i].Intersect(ray) == Nearest(list, ray);
  }

  /** When the last member's hit replaces the kept one, every earlier
      member's hit is strictly farther. */
  lemma {:induction false} LastIsEarliest(list: seq<Shape>, ray: Ray)
    requires Nearest(list, ray).Some?
    requires Nearest(list[..|list| - 1], ray).None?
             || (list[|list| - 1].Intersect(ray).Some?
                 && list[|list| - 1].Intersect(ray).value.distance < Nearest(list[..|list| - 1], ray).value.distance)
    ensures Nearest(list, ray) == list[|list| - 1].Intersect(ray)
    ensures forall j :: 0 <= j < |list| - 1 && list[j].Intersect(ray).Some? ==>
              Nearest(list, ray).value.distance < list[j].Intersect(ray).value.distance
  {
    var prefix := list[..|list| - 1];
    assert forall j :: 0 <= j < |prefix| ==> prefix[j] == list[j];
    if Nearest(prefix, ray).Some? {
      NearestIsMinimal(prefix, ray);
    }
  }

  /** After `push`, the group's answer is the old answer combined with the
      new member's by one more step of the scan. */
  lemma {:induction false} NearestAfterPush(list: seq<Shape>, item: Shape, ray: Ray)
    ensures Nearest(list + [item], ray) == Closer(Nearest(list, ray), item.Intersect(ray))
  {
    assert (list + [item])[..|list|] == list;
  }
}
