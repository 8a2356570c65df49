/**
 * The command line as the program consumes it: a sequence of options, each
 * already matched and its operands already parsed. A file option carries the
 * outcome of loading the file (None when the load failed), since loading is
 * done by the engine and is opaque to the program.
 */
module Options {
  import opened Wrappers

  /** A vector operand; its float components are only passed on, never computed with. */
  datatype Vec3 = Vec3(x: real, y: real, z: real)

  /** The scene-graph node an imported model file loaded as. */
  type ModelHandle = nat

  /** The pipeline stage of a shader, as the engine's shader type names them. */
  datatype Stage = Vertex | TessControl | TessEvaluation | Geometry | Fragment | Compute

  /** A shader the engine loaded from a file: its stage and an identity. */
  datatype Shader = Shader(stage: Stage, id: nat)

  datatype Arg =
    | VisibleBoundaries                                       // -b
    | DepthBoundaries                                         // -d
    | SphereArg(center: Vec3, radius: real)                   // --sphere cx cy cz r
    | BoxArg(center: Vec3, dx: real, dy: real, dz: real)      // --box cx cy cz dx dy dz
    | ConeArg(center: Vec3, radius: real, height: real)       // --cone cx cy cz r h
    | CapsuleArg(center: Vec3, radius: real, height: real)    // --capsule cx cy cz r h
    | CylinderArg(center: Vec3, radius: real, height: real)   // --cylinder cx cy cz r h
    | ModelArg(model: Option<ModelHandle>)                    // --model path
    | Columns(count: nat)                                     // --columns N
    | Rows(count: nat)                                        // --rows N
    | ShaderArg(shader: Option<Shader>)                       // --shader path
    | ZFunction(expr: string)                                 // --Z_FUNCTION expr
    | VisibleFunction(expr: string)                           // --VISIBLE_FUNCTION expr
    | CutOff(value: real)                                     // --cutOff value
    | Output(path: string)                                    // -o path

  // Operand selectors, one per valued option.
  function ColumnsOf(a: Arg): Option<nat> { if a.Columns? then Some(a.count) else None }
  function RowsOf(a: Arg): Option<nat> { if a.Rows? then Some(a.count) else None }
  function ZFunctionOf(a: Arg): Option<string> { if a.ZFunction? then Some(a.expr) else None }
  function VisibleFunctionOf(a: Arg): Option<string> { if a.VisibleFunction? then Some(a.expr) else None }
  function CutOffOf(a: Arg): Option<real> { if a.CutOff? then Some(a.value) else None }
  function OutputOf(a: Arg): Option<string> { if a.Output? then Some(a.path) else None }

  /** The operand of the last option `pick` selects: what a variable holds once the
      argument parser has been asked for that option until no occurrence is left. */
  function Last<T>(args: seq<Arg>, pick: Arg -> Option<T>): Option<T>
    decreases |args|
  {
    if args == [] then None
    else if pick(args[|args| - 1]).Some? then pick(args[|args| - 1])
    else Last(args[..|args| - 1], pick)
  }

  /** The operand of the first option `pick` selects: what a single request to the argument parser finds. */
  function First<T>(args: seq<Arg>, pick: Arg -> Option<T>): Option<T>
    decreases |args|
  {
    if args == [] then None
    else if pick(args[0]).Some? then pick(args[0])
    else First(args[1..], pick)
  }

  /** Whether the flag occurs at all. */
  predicate Present(args: seq<Arg>, flag: Arg) {
    flag in args
  }

  /** Last yields v exactly when v is selected at some position and nothing is selected after it. */
  lemma {:induction false} LastIsFinalOccurrence<T>(args: seq<Arg>, pick: Arg -> Option<T>, v: T)
    ensures Last(args, pick) == Some(v) <==>
            exists i :: 0 <= i < |args| && pick(args[i]) == Some(v) &&
                        forall j :: i < j < |args| ==> pick(args[j]).None?
    decreases |args|
  {
    if args != [] {
      var n := |args| - 1;
      var front := args[..n];
      LastIsFinalOccurrence(front, pick, v);
      if pick(args[n]).Some? {
        if pick(args[n]) == Some(v) {
          assert pick(args[n]) == Some(v);
        } else {
          forall i | 0 <= i < |args| && pick(args[i]) == Some(v)
            ensures exists j :: i < j < |args| && pick(args[j]).Some?
          {
            assert i < n && pick(args[n]).Some?;
          }
        }
      } else {
        if Last(args, pick) == Some(v) {
          var i :| 0 <= i < n && pick(front[i]) == Some(v) &&
                   forall j :: i < j < n ==> pick(front[j]).None?;
          assert pick(args[i]) == Some(v) && forall j :: i < j < |args| ==> pick(args[j]).None?;
        } else {
          forall i | 0 <= i < |args| && pick(args[i]) == Some(v)
            ensures exists j :: i < j < |args| && pick(args[j]).Some?
          {
            assert i < n;
            assert pick(front[i]) == Some(v);
            var j :| i < j < n && pick(front[j]).Some?;
            assert pick(args[j]).Some?;
          }
        }
      }
    }
  }

  /** Last yields nothing exactly when no option is selected. */
  lemma {:induction false} LastNoneIffAbsent<T>(args: seq<Arg>, pick: Arg -> Option<T>)
    ensures Last(args, pick).None? <==> forall i :: 0 <= i < |args| ==> pick(args[i]).None?
    decreases |args|
  {
    if args != [] {
      var n := |args| - 1;
      LastNoneIffAbsent(args[..n], pick);
      assert forall i :: 0 <= i < n ==> args[..n][i] == args[i];
    }
  }

  /** Reading two argument lists in turn: the later one wins whenever it selects anything. */
  lemma {:induction false} LastOfConcat<T>(a: seq<Arg>, b: seq<Arg>, pick: Arg -> Option<T>)
    ensures Last(a + b, pick) == if Last(b, pick).Some? then Last(b, pick) else Last(a, pick)
    decreases |b|
  {
    if b == [] {
      assert a + b == a;
    } else {
      var n := |b| - 1;
      assert (a + b)[..|a + b| - 1] == a + b[..n];
      assert (a + b)[|a + b| - 1] == b[n];
      LastOfConcat(a, b[..n], pick);
    }
  }

  /** Supplying the same options twice over gives what supplying them once gives. */
  lemma LastIdempotent<T>(args: seq<Arg>, pick: Arg -> Option<T>)
    ensures Last(args + args, pick) == Last(args, pick)
  {
    LastOfConcat(args, args, pick);
  }

  /** First yields v exactly when v is selected at some position and nothing is selected before it. */
  lemma {:induction false} FirstIsEarliestOccurrence<T>(args: seq<Arg>, pick: Arg -> Option<T>, v: T)
    ensures First(args, pick) == Some(v) <==>
            exists i :: 0 <= i < |args| && pick(args[i]) == Some(v) &&
                        forall j :: 0 <= j < i ==> pick(args[j]).None?
    decreases |args|
  {
    if args != [] {
      var rest := args[1..];
      FirstIsEarliestOccurrence(rest, pick, v);
      if pick(args[0]).Some? {
        if pick(args[0]) != Some(v) {
          forall i | 0 <= i < |args| && pick(args[i]) == Some(v)
            ensures exists j :: 0 <= j < i && pick(args[j]).Some?
          {
            assert 0 < i && pick(args[0]).Some?;
          }
        }
      } else {
        if First(args, pick) == Some(v) {
          var i :| 0 <= i < |rest| && pick(rest[i]) == Some(v) &&
                   forall j :: 0 <= j < i ==> pick(rest[j]).None?;
          assert pick(args[i + 1]) == Some(v);
          forall j | 0 <= j < i + 1 ensures pick(args[j]).None? {
            if j > 0 { assert args[j] == rest[j - 1]; }
          }
        } else {
          forall i | 0 <= i < |args| && pick(args[i]) == Some(v)
            ensures exists j :: 0 <= j < i && pick(args[j]).Some?
          {
            assert 0 < i;
            assert pick(rest[i - 1]) == Some(v);
            var j :| 0 <= j < i - 1 && pick(rest[j]).Some?;
            assert pick(args[j + 1]).Some?;
          }
        }
      }
    }
  }

  /** Reading one more option: it wins if it is selected. */
  lemma LastStep<T>(args: seq<Arg>, i: nat, pick: Arg -> Option<T>)
    requires i < |args|
    ensures Last(args[..i + 1], pick) == if pick(args[i]).Some? then pick(args[i]) else Last(args[..i], pick)
  {
    assert args[..i + 1][..i] == args[..i];
  }

  /** A variable that starts at `default` and is overwritten by each occurrence of the option in turn. */
  method ReadLast<T>(args: seq<Arg>, pick: Arg -> Option<T>, default: T) returns (v: T)
    ensures v == Last(args, pick).GetOr(default)
  {
    v := default;
    for i := 0 to |args|
      invariant v == Last(args[..i], pick).GetOr(default)
    {
      LastStep(args, i, pick);
      var o := pick(args[i]);
      if o.Some? {
        v := o.value;
      }
    }
    assert args[..|args|] == args;
  }

  /** A flag variable that starts false and is set by every occurrence of the flag. */
  method ReadFlag(args: seq<Arg>, flag: Arg) returns (found: bool)
    ensures found <==> Present(args, flag)
  {
    found := false;
    for i := 0 to |args|
      invariant found <==> flag in args[..i]
    {
      assert args[..i + 1] == args[..i] + [args[i]];
      if args[i] == flag {
        found := true;
      }
    }
    assert args[..|args|] == args;
  }
}
