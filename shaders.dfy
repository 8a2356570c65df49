/**
 * The shader assembly of the surface's render state: the Z_FUNCTION and
 * VISIBLE_FUNCTION preprocessor defines, the cutOff uniform and a program
 * holding at most one shader per pipeline stage. Every setting takes the
 * last value supplied; a shader file that failed to load is ignored.
 */
module Shaders {
  import opened Wrappers
  import opened Options

  const ZFunctionDefine: string := "Z_FUNCTION"
  const VisibleFunctionDefine: string := "VISIBLE_FUNCTION"
  const CutOffUniform: string := "cutOff"
  const DefaultCutOff: real := 0.001

  /** A render state: preprocessor defines, float uniforms by name, and the attached program. */
  datatype StateSet = StateSet(defines: map<string, string>, uniforms: map<string, real>, program: Option<seq<Shader>>)

  /** The render state a freshly created geometry has. */
  const EmptyStateSet: StateSet := StateSet(map[], map[], None)

  function Lookup(m: map<string, string>, key: string): Option<string> {
    if key in m then Some(m[key]) else None
  }

  /** m with key set to the value, when a value was supplied. */
  function SetIfGiven(m: map<string, string>, key: string, v: Option<string>): map<string, string> {
    if v.Some? then m[key := v.value] else m
  }

  // ---------------------------------------------------------------------------
  // Stages and the shader map
  // ---------------------------------------------------------------------------

  /** The engine's numeric shader-type value of each stage (the OpenGL shader enumerants). */
  function StageCode(s: Stage): int {
    match s
    case Vertex => 0x8B31
    case TessControl => 0x8E88
    case TessEvaluation => 0x8E87
    case Geometry => 0x8DD9
    case Fragment => 0x8B30
    case Compute => 0x91B9
  }

  /** The stages in increasing shader-type value: the order a map keyed by stage visits them. */
  const StageOrder: seq<Stage> := [Fragment, Vertex, Geometry, TessEvaluation, TessControl, Compute]

  /** The position of a stage in StageOrder. */
  function StageIndex(s: Stage): nat {
    match s
    case Fragment => 0
    case Vertex => 1
    case Geometry => 2
    case TessEvaluation => 3
    case TessControl => 4
    case Compute => 5
  }

  lemma StageOrderFacts()
    ensures |StageOrder| == 6
    ensures forall j :: 0 <= j < 6 ==> StageIndex(StageOrder[j]) == j
    ensures forall s :: StageIndex(s) < 6 && StageOrder[StageIndex(s)] == s
    ensures forall s, t :: StageIndex(s) < StageIndex(t) <==> StageCode(s) < StageCode(t)
  {
  }

  /** The shader an option successfully loads for stage s, if any. */
  function ShaderOfStage(s: Stage): Arg -> Option<Shader> {
    (a: Arg) => if a.ShaderArg? && a.shader.Some? && a.shader.value.stage == s then a.shader else None
  }

  /** The shader map after the shader options: each loaded shader stored under its own stage. */
  function ShaderMap(args: seq<Arg>): map<Stage, Shader>
    decreases |args|
  {
    if args == [] then map[]
    else
      var m := ShaderMap(args[..|args| - 1]);
      var a := args[|args| - 1];
      if a.ShaderArg? && a.shader.Some? then m[a.shader.value.stage := a.shader.value] else m
  }

  ghost predicate KeyedByStage(m: map<Stage, Shader>) {
    forall s :: s in m ==> m[s].stage == s
  }

  /** Stage s is in the map exactly when a shader of stage s loaded, and then it holds the last one. */
  lemma {:induction false} ShaderMapLastWins(args: seq<Arg>, s: Stage)
    ensures s in ShaderMap(args) <==> Last(args, ShaderOfStage(s)).Some?
    ensures s in ShaderMap(args) ==> ShaderMap(args)[s] == Last(args, ShaderOfStage(s)).value
    decreases |args|
  {
    if args != [] {
      ShaderMapLastWins(args[..|args| - 1], s);
    }
  }

  lemma {:induction false} ShaderMapKeyedByStage(args: seq<Arg>)
    ensures KeyedByStage(ShaderMap(args))
    decreases |args|
  {
    if args != [] {
      ShaderMapKeyedByStage(args[..|args| - 1]);
    }
  }

  /** The shaders of the first j stages of StageOrder that m holds, in that order. */
  function Listed(m: map<Stage, Shader>, j: nat): seq<Shader>
    requires j <= |StageOrder|
  {
    if j == 0 then []
    else Listed(m, j - 1) + (if StageOrder[j - 1] in m then [m[StageOrder[j - 1]]] else [])
  }

  /** Shaders in strictly increasing shader-type value, hence at most one per stage. */
  ghost predicate StagesAscending(p: seq<Shader>) {
    forall i, j :: 0 <= i < j < |p| ==> StageCode(p[i].stage) < StageCode(p[j].stage)
  }

  lemma {:induction false} ListedMembers(m: map<Stage, Shader>, j: nat)
    requires j <= |StageOrder| && KeyedByStage(m)
    ensures forall sh :: sh in Listed(m, j) <==> sh.stage in m && m[sh.stage] == sh && StageIndex(sh.stage) < j
  {
    StageOrderFacts();
    if j > 0 {
      ListedMembers(m, j - 1);
    }
  }

  lemma {:induction false} ListedAscending(m: map<Stage, Shader>, j: nat)
    requires j <= |StageOrder| && KeyedByStage(m)
    ensures StagesAscending(Listed(m, j))
  {
    StageOrderFacts();
    if j > 0 {
      ListedAscending(m, j - 1);
      ListedMembers(m, j - 1);
      var before := Listed(m, j - 1);
      var s := Listed(m, j);
      forall i, k | 0 <= i < k < |s| ensures StageCode(s[i].stage) < StageCode(s[k].stage) {
        if k >= |before| {
          assert s[i] == before[i] && s[i] in before;
          assert s[k].stage == StageOrder[j - 1];
        }
      }
    }
  }

  // ---------------------------------------------------------------------------
  // The assembled render state
  // ---------------------------------------------------------------------------

  /** The render state after the shader options are applied to `state`. */
  function Assemble(args: seq<Arg>, state: StateSet): StateSet {
    StateSet(
      SetIfGiven(SetIfGiven(state.defines, ZFunctionDefine, Last(args, ZFunctionOf)),
                 VisibleFunctionDefine, Last(args, VisibleFunctionOf)),
      state.uniforms[CutOffUniform := Last(args, CutOffOf).GetOr(DefaultCutOff)],
      Some(Listed(ShaderMap(args), |StageOrder|)))
  }

  /** Each define holds the last value supplied for it, or what it held before; no other define changes. */
  lemma DefinesLastWins(args: seq<Arg>, state: StateSet)
    ensures var after := Assemble(args, state).defines;
            && Lookup(after, ZFunctionDefine) ==
               (if Last(args, ZFunctionOf).Some? then Last(args, ZFunctionOf) else Lookup(state.defines, ZFunctionDefine))
            && Lookup(after, VisibleFunctionDefine) ==
               (if Last(args, VisibleFunctionOf).Some? then Last(args, VisibleFunctionOf) else Lookup(state.defines, VisibleFunctionDefine))
            && after - {ZFunctionDefine, VisibleFunctionDefine} == state.defines - {ZFunctionDefine, VisibleFunctionDefine}
  {
    assert ZFunctionDefine != VisibleFunctionDefine;
  }

  /** The cutOff uniform holds the last value supplied, 0.001 when none is; no other uniform changes. */
  lemma CutOffLastWins(args: seq<Arg>, state: StateSet)
    ensures var after := Assemble(args, state).uniforms;
            && CutOffUniform in after
            && ((forall i :: 0 <= i < |args| ==> !args[i].CutOff?) ==> after[CutOffUniform] == DefaultCutOff)
            && (forall v: real :: Last(args, CutOffOf) == Some(v) ==> after[CutOffUniform] == v)
            && after - {CutOffUniform} == state.uniforms - {CutOffUniform}
  {
    LastNoneIffAbsent(args, CutOffOf);
  }

  /** The program holds exactly the last successfully loaded shader of each stage, in stage order. */
  lemma ProgramLastLoadedPerStage(args: seq<Arg>, state: StateSet)
    ensures Assemble(args, state).program.Some?
    ensures var p := Assemble(args, state).program.value;
            && (forall sh :: sh in p <==> Last(args, ShaderOfStage(sh.stage)) == Some(sh))
            && StagesAscending(p)
  {
    var m := ShaderMap(args);
    ShaderMapKeyedByStage(args);
    StageOrderFacts();
    ListedMembers(m, |StageOrder|);
    ListedAscending(m, |StageOrder|);
    forall sh ensures sh in Listed(m, |StageOrder|) <==> Last(args, ShaderOfStage(sh.stage)) == Some(sh) {
      ShaderMapLastWins(args, sh.stage);
    }
  }

  /** Supplying the same shader options twice over assembles what supplying them once does. */
  lemma AssembleIdempotent(args: seq<Arg>, state: StateSet)
    ensures Assemble(args + args, state) == Assemble(args, state)
  {
    LastIdempotent(args, ZFunctionOf);
    LastIdempotent(args, VisibleFunctionOf);
    LastIdempotent(args, CutOffOf);
    forall s ensures (s in ShaderMap(args + args)) == (s in ShaderMap(args)) &&
                     (s in ShaderMap(args) ==> ShaderMap(args + args)[s] == ShaderMap(args)[s]) {
      LastIdempotent(args, ShaderOfStage(s));
      ShaderMapLastWins(args, s);
      ShaderMapLastWins(args + args, s);
    }
    assert ShaderMap(args + args) == ShaderMap(args);
  }

  // ---------------------------------------------------------------------------
  // The assembly loops
  // ---------------------------------------------------------------------------

  /** Applying the shader options to a render state, one reading loop per option. */
  method AddShaders(args: seq<Arg>, state: StateSet) returns (result: StateSet)
    ensures result == Assemble(args, state)
  {
    var defines := state.defines;
    for i := 0 to |args|
      invariant defines == SetIfGiven(state.defines, ZFunctionDefine, Last(args[..i], ZFunctionOf))
    {
      LastStep(args, i, ZFunctionOf);
      if args[i].ZFunction? {
        defines := defines[ZFunctionDefine := args[i].expr];
      }
    }
    ghost var zDefines := defines;
    for i := 0 to |args|
      invariant defines == SetIfGiven(zDefines, VisibleFunctionDefine, Last(args[..i], VisibleFunctionOf))
    {
      LastStep(args, i, VisibleFunctionOf);
      if args[i].VisibleFunction? {
        defines := defines[VisibleFunctionDefine := args[i].expr];
      }
    }

    var cutOff := ReadLast(args, CutOffOf, DefaultCutOff);
    var uniforms := state.uniforms[CutOffUniform := cutOff];

    var shaders: map<Stage, Shader> := map[];
    for i := 0 to |args|
      invariant shaders == ShaderMap(args[..i])
    {
      assert args[..i + 1][..i] == args[..i];
      var a := args[i];
      if a.ShaderArg? && a.shader.Some? {
        shaders := shaders[a.shader.value.stage := a.shader.value];
      }
    }

    var program: seq<Shader> := [];
    for j := 0 to |StageOrder|
      invariant program == Listed(shaders, j)
    {
      var s := StageOrder[j];
      if s in shaders {
        program := program + [shaders[s]];
      }
    }

    assert args[..|args|] == args;
    result := StateSet(defines, uniforms, Some(program));
  }
}
