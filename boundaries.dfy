/**
 * The boundary registry: the shapes and imported models whose depth the
 * program captures. The program reads the boundary options kind by kind
 * (all spheres, then boxes, cones, capsules, cylinders and finally models),
 * so the registry is the command line's boundaries grouped by kind, each
 * group in command-line order. A model whose file failed to load is skipped.
 */
module Boundaries {
  import opened Wrappers
  import opened Options

  /** A boundary volume: an analytic shape or the node an imported model loaded as. */
  datatype Boundary =
    | Sphere(center: Vec3, radius: real)
    | Box(center: Vec3, dx: real, dy: real, dz: real)
    | Cone(center: Vec3, radius: real, height: real)
    | Capsule(center: Vec3, radius: real, height: real)
    | Cylinder(center: Vec3, radius: real, height: real)
    | ImportedModel(node: ModelHandle)

  datatype Kind = SphereKind | BoxKind | ConeKind | CapsuleKind | CylinderKind | ModelKind

  function KindOf(b: Boundary): Kind {
    match b
    case Sphere(_, _) => SphereKind
    case Box(_, _, _, _) => BoxKind
    case Cone(_, _, _) => ConeKind
    case Capsule(_, _, _) => CapsuleKind
    case Cylinder(_, _, _) => CylinderKind
    case ImportedModel(_) => ModelKind
  }

  /** The kinds in the order the program reads their options. */
  const KindOrder: seq<Kind> := [SphereKind, BoxKind, ConeKind, CapsuleKind, CylinderKind, ModelKind]

  /** The position of a kind in KindOrder. */
  function Rank(k: Kind): nat {
    match k
    case SphereKind => 0
    case BoxKind => 1
    case ConeKind => 2
    case CapsuleKind => 3
    case CylinderKind => 4
    case ModelKind => 5
  }

  lemma KindOrderRanks()
    ensures |KindOrder| == 6
    ensures forall j :: 0 <= j < 6 ==> Rank(KindOrder[j]) == j
    ensures forall k :: Rank(k) < 6 && KindOrder[Rank(k)] == k
  {
  }

  /** The boundary an option asks for: none for a non-boundary option or a model that failed to load. */
  function BoundaryOf(a: Arg): Option<Boundary> {
    match a
    case SphereArg(c, r) => Some(Sphere(c, r))
    case BoxArg(c, x, y, z) => Some(Box(c, x, y, z))
    case ConeArg(c, r, h) => Some(Cone(c, r, h))
    case CapsuleArg(c, r, h) => Some(Capsule(c, r, h))
    case CylinderArg(c, r, h) => Some(Cylinder(c, r, h))
    case ModelArg(m) => if m.Some? then Some(ImportedModel(m.value)) else None
    case _ => None
  }

  function Contribution(a: Arg): seq<Boundary> {
    if BoundaryOf(a).Some? then [BoundaryOf(a).value] else []
  }

  /** Every boundary the command line asks for, in command-line order. */
  function Requested(args: seq<Arg>): seq<Boundary>
    decreases |args|
  {
    if args == [] then [] else Requested(args[..|args| - 1]) + Contribution(args[|args| - 1])
  }

  /** The boundaries of kind k, in their order in bs. */
  function OfKind(bs: seq<Boundary>, k: Kind): seq<Boundary>
    decreases |bs|
  {
    if bs == [] then []
    else OfKind(bs[..|bs| - 1], k) + (if KindOf(bs[|bs| - 1]) == k then [bs[|bs| - 1]] else [])
  }

  /** The groups of the first n kinds of KindOrder, one after another. */
  function ByKind(bs: seq<Boundary>, n: nat): seq<Boundary>
    requires n <= |KindOrder|
  {
    if n == 0 then [] else ByKind(bs, n - 1) + OfKind(bs, KindOrder[n - 1])
  }

  /** The registry the command line produces. */
  function Collected(args: seq<Arg>): seq<Boundary> {
    ByKind(Requested(args), |KindOrder|)
  }

  // ---------------------------------------------------------------------------
  // Filtering by kind
  // ---------------------------------------------------------------------------

  lemma {:induction false} OfKindConcat(a: seq<Boundary>, b: seq<Boundary>, k: Kind)
    ensures OfKind(a + b, k) == OfKind(a, k) + OfKind(b, k)
    decreases |b|
  {
    if b == [] {
      assert a + b == a;
    } else {
      var n := |b| - 1;
      assert (a + b)[..|a + b| - 1] == a + b[..n];
      OfKindConcat(a, b[..n], k);
    }
  }

  lemma {:induction false} OfKindOnlyKind(bs: seq<Boundary>, k: Kind)
    ensures forall i :: 0 <= i < |OfKind(bs, k)| ==> KindOf(OfKind(bs, k)[i]) == k
    decreases |bs|
  {
    if bs != [] {
      OfKindOnlyKind(bs[..|bs| - 1], k);
    }
  }

  lemma {:induction false} OfKindOfKind(bs: seq<Boundary>, k: Kind, k': Kind)
    ensures OfKind(OfKind(bs, k), k') == if k == k' then OfKind(bs, k) else []
    decreases |bs|
  {
    if bs != [] {
      var n := |bs| - 1;
      var front := OfKind(bs[..n], k);
      var last := if KindOf(bs[n]) == k then [bs[n]] else [];
      OfKindOfKind(bs[..n], k, k');
      OfKindConcat(front, last, k');
      if last != [] {
        assert OfKind(last, k') == (if k == k' then last else []) by {
          assert last[..0] == [];
        }
      }
    }
  }

  /** Count of x in the group of kind k: all of x's occurrences when x has kind k, none otherwise. */
  lemma {:induction false} OfKindCount(bs: seq<Boundary>, k: Kind, x: Boundary)
    ensures multiset(OfKind(bs, k))[x] == if KindOf(x) == k then multiset(bs)[x] else 0
    decreases |bs|
  {
    if bs != [] {
      var n := |bs| - 1;
      var front := bs[..n];
      OfKindCount(front, k, x);
      assert bs == front + [bs[n]];
      assert multiset(bs) == multiset(front) + multiset{bs[n]};
      var last := if KindOf(bs[n]) == k then [bs[n]] else [];
      assert OfKind(bs, k) == OfKind(front, k) + last;
      assert multiset(OfKind(bs, k)) == multiset(OfKind(front, k)) + multiset(last);
    }
  }

  lemma {:induction false} ByKindOfKind(bs: seq<Boundary>, n: nat, k: Kind)
    requires n <= |KindOrder|
    ensures OfKind(ByKind(bs, n), k) == if Rank(k) < n then OfKind(bs, k) else []
  {
    if n > 0 {
      var k' := KindOrder[n - 1];
      ByKindOfKind(bs, n - 1, k);
      OfKindConcat(ByKind(bs, n - 1), OfKind(bs, k'), k);
      OfKindOfKind(bs, k', k);
      assert k' == k <==> Rank(k) == n - 1 by { KindOrderRanks(); }
    }
  }

  lemma {:induction false} ByKindGrouped(bs: seq<Boundary>, n: nat)
    requires n <= |KindOrder|
    ensures forall i :: 0 <= i < |ByKind(bs, n)| ==> Rank(KindOf(ByKind(bs, n)[i])) < n
    ensures forall i, j :: 0 <= i < j < |ByKind(bs, n)| ==>
              Rank(KindOf(ByKind(bs, n)[i])) <= Rank(KindOf(ByKind(bs, n)[j]))
  {
    KindOrderRanks();
    if n > 0 {
      ByKindGrouped(bs, n - 1);
      var before := ByKind(bs, n - 1);
      var group := OfKind(bs, KindOrder[n - 1]);
      OfKindOnlyKind(bs, KindOrder[n - 1]);
      var s := ByKind(bs, n);
      assert s == before + group;
      forall i | 0 <= i < |s| ensures Rank(KindOf(s[i])) < n {
        if i >= |before| { assert s[i] == group[i - |before|]; }
      }
      forall i, j | 0 <= i < j < |s| ensures Rank(KindOf(s[i])) <= Rank(KindOf(s[j])) {
        if j >= |before| {
          assert s[j] == group[j - |before|];
          if i >= |before| { assert s[i] == group[i - |before|]; }
        }
      }
    }
  }

  lemma {:induction false} ByKindCount(bs: seq<Boundary>, n: nat, x: Boundary)
    requires n <= |KindOrder|
    ensures multiset(ByKind(bs, n))[x] == if Rank(KindOf(x)) < n then multiset(bs)[x] else 0
  {
    KindOrderRanks();
    if n > 0 {
      ByKindCount(bs, n - 1, x);
      OfKindCount(bs, KindOrder[n - 1], x);
    }
  }

  // ---------------------------------------------------------------------------
  // Properties of the registry
  // ---------------------------------------------------------------------------

  /** Spheres come first, then boxes, cones, capsules, cylinders and models. */
  lemma CollectedGroupedByKind(args: seq<Arg>)
    ensures forall i, j :: 0 <= i < j < |Collected(args)| ==>
              Rank(KindOf(Collected(args)[i])) <= Rank(KindOf(Collected(args)[j]))
  {
    ByKindGrouped(Requested(args), |KindOrder|);
  }

  /** Within each kind the boundaries keep their command-line order. */
  lemma CollectedKeepsOrderWithinKind(args: seq<Arg>, k: Kind)
    ensures OfKind(Collected(args), k) == OfKind(Requested(args), k)
  {
    KindOrderRanks();
    ByKindOfKind(Requested(args), |KindOrder|, k);
  }

  /** The registry holds exactly the requested boundaries, each as often as it is requested. */
  lemma CollectedIsPermutation(args: seq<Arg>)
    ensures multiset(Collected(args)) == multiset(Requested(args))
  {
    KindOrderRanks();
    forall x ensures multiset(Collected(args))[x] == multiset(Requested(args))[x] {
      ByKindCount(Requested(args), |KindOrder|, x);
    }
  }

  lemma {:induction false} RequestedConcat(a: seq<Arg>, b: seq<Arg>)
    ensures Requested(a + b) == Requested(a) + Requested(b)
    decreases |b|
  {
    if b == [] {
      assert a + b == a;
    } else {
      var n := |b| - 1;
      assert (a + b)[..|a + b| - 1] == a + b[..n];
      RequestedConcat(a, b[..n]);
    }
  }

  /** A model whose file failed to load leaves the registry as if it had not been given. */
  lemma FailedModelLoadSkipped(before: seq<Arg>, after: seq<Arg>)
    ensures Collected(before + [ModelArg(None)] + after) == Collected(before + after)
  {
    var skipped := [ModelArg(None)];
    assert Requested(skipped) == [] by {
      assert skipped[..0] == [];
    }
    assert Requested(before + skipped) == Requested(before) by {
      RequestedConcat(before, skipped);
      assert Requested(before) + [] == Requested(before);
    }
    assert Requested(before + skipped + after) == Requested(before + after) by {
      RequestedConcat(before + skipped, after);
      RequestedConcat(before, after);
    }
  }

  /** The registry spelled out: the six groups in their reading order. */
  lemma CollectedGroups(args: seq<Arg>)
    ensures Collected(args) ==
            OfKind(Requested(args), SphereKind) + OfKind(Requested(args), BoxKind) +
            OfKind(Requested(args), ConeKind) + OfKind(Requested(args), CapsuleKind) +
            OfKind(Requested(args), CylinderKind) + OfKind(Requested(args), ModelKind)
  {
    var bs := Requested(args);
    assert ByKind(bs, 1) == OfKind(bs, SphereKind);
    assert ByKind(bs, 2) == ByKind(bs, 1) + OfKind(bs, BoxKind);
    assert ByKind(bs, 3) == ByKind(bs, 2) + OfKind(bs, ConeKind);
    assert ByKind(bs, 4) == ByKind(bs, 3) + OfKind(bs, CapsuleKind);
    assert ByKind(bs, 5) == ByKind(bs, 4) + OfKind(bs, CylinderKind);
    assert ByKind(bs, 6) == ByKind(bs, 5) + OfKind(bs, ModelKind);
  }

  /** A box given before a sphere still comes after it. */
  lemma SphereBeforeBox(center: Vec3, radius: real, dx: real, dy: real, dz: real)
    ensures Collected([BoxArg(center, dx, dy, dz), SphereArg(center, radius)])
            == [Sphere(center, radius), Box(center, dx, dy, dz)]
  {
    var box, sphere := Box(center, dx, dy, dz), Sphere(center, radius);
    var args := [BoxArg(center, dx, dy, dz), SphereArg(center, radius)];
    var bs := Requested(args);
    assert bs == [box, sphere] by {
      RequestedStep(args, 0);
      RequestedStep(args, 1);
      assert args[..0] == [] && args[..2] == args;
    }
    OfKindPair(box, sphere, SphereKind);
    OfKindPair(box, sphere, BoxKind);
    OfKindPair(box, sphere, ConeKind);
    OfKindPair(box, sphere, CapsuleKind);
    OfKindPair(box, sphere, CylinderKind);
    OfKindPair(box, sphere, ModelKind);
    CollectedGroups(args);
    assert Collected(args) == [sphere] + [box] + [] + [] + [] + [];
  }

  lemma OfKindPair(x: Boundary, y: Boundary, k: Kind)
    ensures OfKind([x, y], k) == (if KindOf(x) == k then [x] else []) + (if KindOf(y) == k then [y] else [])
  {
    assert [x, y] == [x] + [y] && [x] == [] + [x];
    OfKindStep([x], y, k);
    OfKindStep([], x, k);
  }

  // ---------------------------------------------------------------------------
  // Reading the registry
  // ---------------------------------------------------------------------------

  lemma RequestedStep(args: seq<Arg>, i: nat)
    requires i < |args|
    ensures Requested(args[..i + 1]) == Requested(args[..i]) + Contribution(args[i])
  {
    assert args[..i + 1][..i] == args[..i];
  }

  lemma OfKindStep(bs: seq<Boundary>, x: Boundary, k: Kind)
    ensures OfKind(bs + [x], k) == OfKind(bs, k) + (if KindOf(x) == k then [x] else [])
  {
    assert (bs + [x])[..|bs|] == bs;
  }

  /** One reading loop: appends, in command-line order, every boundary of one kind. */
  method ReadBoundaries(boundaries: seq<Boundary>, args: seq<Arg>, kind: Kind) returns (result: seq<Boundary>)
    ensures result == boundaries + OfKind(Requested(args), kind)
  {
    result := boundaries;
    for i := 0 to |args|
      invariant result == boundaries + OfKind(Requested(args[..i]), kind)
    {
      RequestedStep(args, i);
      var b := BoundaryOf(args[i]);
      if b.Some? {
        assert Contribution(args[i]) == [b.value];
        OfKindStep(Requested(args[..i]), b.value, kind);
        if KindOf(b.value) == kind {
          result := result + [b.value];
        }
      } else {
        assert Requested(args[..i + 1]) == Requested(args[..i]) + [];
        assert Requested(args[..i]) + [] == Requested(args[..i]);
      }
    }
    assert args[..|args|] == args;
  }

  /** The program's six reading loops, one per kind, in their order. */
  method CollectBoundaries(args: seq<Arg>) returns (boundaries: seq<Boundary>)
    ensures boundaries == Collected(args)
    ensures multiset(boundaries) == multiset(Requested(args))
    ensures forall i, j :: 0 <= i < j < |boundaries| ==>
              Rank(KindOf(boundaries[i])) <= Rank(KindOf(boundaries[j]))
    ensures forall k :: OfKind(boundaries, k) == OfKind(Requested(args), k)
  {
    ghost var bs := Requested(args);
    boundaries := [];
    boundaries := ReadBoundaries(boundaries, args, SphereKind);
    boundaries := ReadBoundaries(boundaries, args, BoxKind);
    boundaries := ReadBoundaries(boundaries, args, ConeKind);
    boundaries := ReadBoundaries(boundaries, args, CapsuleKind);
    boundaries := ReadBoundaries(boundaries, args, CylinderKind);
    boundaries := ReadBoundaries(boundaries, args, ModelKind);
    assert boundaries == Collected(args) by {
      assert boundaries == OfKind(bs, SphereKind) + OfKind(bs, BoxKind) + OfKind(bs, ConeKind) +
                           OfKind(bs, CapsuleKind) + OfKind(bs, CylinderKind) + OfKind(bs, ModelKind);
      CollectedGroups(args);
    }
    CollectedProperties(args);
  }

  /** The three properties of the registry together. */
  lemma CollectedProperties(args: seq<Arg>)
    ensures multiset(Collected(args)) == multiset(Requested(args))
    ensures forall i, j :: 0 <= i < j < |Collected(args)| ==>
              Rank(KindOf(Collected(args)[i])) <= Rank(KindOf(Collected(args)[j]))
    ensures forall k :: OfKind(Collected(args), k) == OfKind(Requested(args), k)
  {
    CollectedIsPermutation(args);
    CollectedGroupedByKind(args);
    forall k ensures OfKind(Collected(args), k) == OfKind(Requested(args), k) {
      CollectedKeepsOrderWithinKind(args, k);
    }
  }
}
