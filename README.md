# Depth-bounded surface: a Dafny model

This project models the integer and structural core of a small
OpenSceneGraph application, `main.cpp`. The application builds a scene for
rendering a height-field surface clipped against boundary volumes:

- It collects boundary volumes from the command line: spheres, boxes,
  cones, capsules, cylinders and imported models.
- It optionally shows those volumes in the scene.
- It optionally adds, per boundary, two off-screen depth cameras: one
  renders the boundary's front faces into a depth texture, the other its
  back faces.
- It builds a gridded surface mesh.
- It applies four shader options to the mesh's render state: the
  `Z_FUNCTION` and `VISIBLE_FUNCTION` preprocessor defines, the `cutOff`
  uniform, and a program holding one shader per pipeline stage.
- It adds the mesh to the scene last.

The model is written in the source's own form: each reading loop, each
emission loop and each child-adding loop is a Dafny `method` with loop
invariants. Most are proved equal to a specification function (`Last`,
`GridVertices`, `Triangulation`, `OfKind`, `Assemble`). The boundary-showing
loop (`ShowBoundaries`) and the depth-camera loop (`CaptureDepth`) are
instead specified element by element: the length of their result and the
node at each position. The properties the program relies on are lemmas
about the specification functions:

- the two inverse maps between vertex identifiers and grid points;
- the bounds and non-degeneracy of the triangle indices;
- the index-width rule;
- last-write-wins for every repeated option;
- the grouping by kind of the boundary registry, and that it is a
  permutation of the requested boundaries;
- the layout of the scene group's children.

Modules, in dependency order:

- `Wrappers`: `Option`.
- `Options`: the pre-parsed command line, an `Arg` sequence. Also its
  selectors: `Last` is what a reading loop leaves in its variable, `First`
  is what a single read finds, and `Present` tests a flag.
- `GridMesh`: `createMesh` minus its floating-point geometry. It covers the
  vertex grid, the index-width choice and the triangulation.
- `Boundaries`: the boundary registry as `main` fills it.
- `Shaders`: `addShaders`.
- `SceneGraph`: node, camera and texture values.
- `DepthCapture`: the depth-camera loop.
- `SceneComposer`: `main`'s scene assembly.

16-bit indices are used only when `numVertices >> 16` is zero, that is,
for at most 65535 vertices. A 255 x 255 grid (65536 vertices) therefore gets
32-bit indices, although its largest index, 65535, fits 16 bits
(`WideIndicesAtExactlyMaxVertices`). The code accepts 0 for `--columns` or
`--rows`: its integer part then gives one column or one row of vertices and
no triangles, so the model takes any `nat` for the cell counts.

## Model

| member | source | states |
|---|---|---|
| Options.ReadLast | main.cpp:319-324 | a variable that starts at a default and is overwritten by each occurrence of an option ends as the operand of the last occurrence, or the default when there is none |
| Options.ReadFlag | main.cpp:218-222 | the flag variable ends true exactly when the flag occurs on the command line |
| Options.LastIsFinalOccurrence | main.cpp:174-175 | the value read is v exactly when some occurrence carries v and no occurrence of the same option follows it |
| Options.LastNoneIffAbsent | main.cpp:319-324 | nothing is read (the default stays) exactly when the option never occurs |
| Options.LastOfConcat | main.cpp:167 | reading two stretches of arguments in turn, the later stretch's value wins whenever it has one |
| Options.LastIdempotent | main.cpp:323-324 | repeating the whole command line does not change what a reading loop leaves |
| Options.FirstIsEarliestOccurrence | main.cpp:337-338 | a single read of `-o` finds the first occurrence |
| GridMesh.IndexWidthFor | main.cpp:88-89 | 16-bit indices are chosen exactly when the vertex count is at most 0xFFFF, i.e. when `numVertices >> 16` is zero |
| GridMesh.IndexWidthThreshold | main.cpp:84-89 | 255 x 255 cells give 65536 vertices and 32-bit indices; 255 x 254 cells give 65280 vertices and 16-bit indices |
| GridMesh.WideIndicesAtExactlyMaxVertices | main.cpp:88-108 | at 65536 vertices 32-bit indices are chosen although every emitted index is at most 0xFFFF |
| GridMesh.GridVerticesLength | main.cpp:45-61 | the vertex loop pushes (uCells+1)*(vCells+1) vertices, matching `numVertices` |
| GridMesh.GridVerticesAt | main.cpp:55-61 | the vertex of row r, column c sits at position c + r*(uCells+1) |
| GridMesh.GridVerticesEnumerate | main.cpp:55-61 | position k of the vertex array holds the grid point (k div (uCells+1), k mod (uCells+1)) |
| GridMesh.GridPointAtInvertsVertexId | main.cpp:97 | the vertex identifier of a grid point decodes back to that grid point |
| GridMesh.VertexIdInvertsGridPointAt | main.cpp:97 | decoding a position into a grid point and re-encoding it gives the position back |
| GridMesh.DivModUnique | main.cpp:97 | a position is written as column + row*(uCells+1) in only one way |
| GridMesh.TriangulationLength | main.cpp:93-108 | the cell loops emit 6*uCells*vCells indices |
| GridMesh.RowCellsLength | main.cpp:95-107 | one row of the cell loop emits six indices per cell |
| GridMesh.TriangulationWholeTriangles | main.cpp:93-108 | the emitted index list is a whole number of triangles |
| GridMesh.TriangulationCellAt | main.cpp:93-108 | the six indices of cell (r, c) sit at offset 6*(r*uCells + c) and are p0, p2, p1, p2, p3, p1 |
| GridMesh.TriangulationBounded | main.cpp:93-108 | every emitted index names an existing vertex |
| GridMesh.RowCellsBounded | main.cpp:95-107 | the indices of row r stay below the first vertex of row r+2 |
| GridMesh.TriangulationNonDegenerate | main.cpp:97-106 | no emitted triangle repeats a vertex |
| GridMesh.CellNonDegenerate | main.cpp:97-106 | the two triangles of one cell have three distinct corners each |
| GridMesh.OneCellGrid | main.cpp:93-108 | a 1 x 1 grid is the two triangles 0,1,2 and 1,3,2 |
| GridMesh.EnumerateVertices | main.cpp:55-61 | the nested vertex loop produces the row-major vertex grid |
| GridMesh.AddCell | main.cpp:97-106 | one cell appends exactly its six indices |
| GridMesh.Triangulate | main.cpp:93-108 | the nested cell loop produces the row-major triangulation |
| GridMesh.CreateMesh | main.cpp:40-108 | the mesh has numVertices row-major vertices, the index width of the 0xFFFF rule, 6*uCells*vCells indices laid out cell by cell, every index below numVertices (and within 16 bits when 16-bit indices are chosen), and no degenerate triangle |
| Boundaries.ReadBoundaries | main.cpp:229-232 | one reading loop appends, in command-line order, every requested boundary of its kind and nothing else |
| Boundaries.CollectBoundaries | main.cpp:224-259 | the registry is the six kinds' groups one after another, holds exactly the requested boundaries (as a multiset), is ordered by kind, and keeps command-line order within each kind |
| Boundaries.CollectedGroups | main.cpp:229-259 | the registry is spheres, then boxes, cones, capsules, cylinders, models |
| Boundaries.CollectedGroupedByKind | main.cpp:229-259 | no boundary of a later kind precedes one of an earlier kind |
| Boundaries.CollectedKeepsOrderWithinKind | main.cpp:229-259 | the boundaries of each kind appear in the order they were given |
| Boundaries.CollectedIsPermutation | main.cpp:229-259 | each requested boundary is in the registry exactly as often as it is requested |
| Boundaries.CollectedProperties | main.cpp:229-259 | the three properties above together |
| Boundaries.FailedModelLoadSkipped | main.cpp:255-259 | a model whose file failed to load leaves the registry as if it had not been given |
| Boundaries.SphereBeforeBox | main.cpp:229-237 | a box given before a sphere still ends up after it |
| Boundaries.OfKindCount | main.cpp:229-259 | filtering by a kind keeps every occurrence of a boundary of that kind and none of any other kind |
| Boundaries.ByKindOfKind | main.cpp:229-259 | the group of a kind inside the first n groups is that kind's filter when the kind is among the first n, else empty |
| Shaders.AddShaders | main.cpp:164-201 | applying the shader options yields the assembled render state |
| Shaders.DefinesLastWins | main.cpp:166-171 | each define holds the last expression given for it, or its old value when none is given; no other define changes |
| Shaders.CutOffLastWins | main.cpp:174-176 | the cutOff uniform is always set, to the last value given or 0.001 when none is given; no other uniform changes |
| Shaders.ShaderMapLastWins | main.cpp:184-191 | a stage is in the shader map exactly when some shader of that stage loaded, and it maps to the last one loaded |
| Shaders.ShaderMapKeyedByStage | main.cpp:181-191 | every shader in the map is stored under its own stage |
| Shaders.ListedMembers | main.cpp:193-198 | the program holds exactly the map's shaders |
| Shaders.ListedAscending | main.cpp:193-198 | the program's shaders are in increasing shader-type order, one per stage |
| Shaders.ProgramLastLoadedPerStage | main.cpp:178-200 | a program is attached, and it holds a shader exactly when that shader is the last loaded one of its stage, in stage order |
| Shaders.AssembleIdempotent | main.cpp:164-201 | giving the shader options twice over assembles the same render state as giving them once |
| SceneGraph.CreateDepthTexture | main.cpp:129-140 | a new depth texture has the requested width and height (its format, filters, wrap and border are not kept) |
| SceneGraph.CreateDepthCamera | main.cpp:142-162 | the camera renders into its texture over a viewport equal to the texture's extent, with the cull mode and the single child that main.cpp:286-287 and 294-295 add (its constant render settings are not kept) |
| DepthCapture.CaptureDepth | main.cpp:271-299 | with depth capture on, each boundary in registry order gets a back-culling camera over a fresh front texture and then a front-culling camera over a fresh back texture, both with that boundary as child and a viewport of the texture's size; the group before is kept; with it off nothing is added; all textures are distinct and of the given size |
| SceneComposer.ShowBoundaries | main.cpp:261-269 | when boundaries are visible, the group starts with every boundary in registry order; otherwise with none |
| SceneComposer.ArrangeBoundaries | main.cpp:261-299 | the group before the surface: the shown boundaries, then two depth cameras per boundary when requested, with distinct 1280 x 1024 textures |
| SceneComposer.BuildSurface | main.cpp:315-330 | the surface mesh has the last requested column and row counts (10 by default), and its render state is the assembled shader state |
| SceneComposer.ComposeScene | main.cpp:213-338 | the scene group is the shown boundaries, then the depth cameras, then the surface; the registry, the mesh, the render state and the output path are as the separate parts state |

## Left out

- The floating-point geometry of `createMesh` (main.cpp:52-53, 59, 66-78, 110-123) is not modelled, because it only carries floats. That covers vertex positions, the normal, the colour and the initial bounding box. A vertex is modelled as its grid point (row, column).
- CreateMesh: does not model the 32-bit unsigned wrap-around of `numVertices` and of the vertex identifiers. The product wraps once it reaches 2^32 or more: `--columns 65535 --rows 65535` gives `numVertices` 0 in the source, and so 16-bit indices, where the model gives 2^32 and 32-bit indices. Such a grid cannot be stored, so the model uses unbounded counts.
- Floating-point values (shape parameters, `cutOff`) are modelled as `real` and only passed on. The float rounding of 0.001 is not modelled.
- The constant settings of depth textures and cameras are not modelled: internal format, filters, wrap, border colour, clear mask, render order, render target, reference frame and matrices (main.cpp:133-138, 148-159). Only the texture size, the viewport, the cull face and the child are.
- Command-line matching is not modelled. The ArgumentParser's consumption of arguments and the parsing of numeric operands are taken as already done: the model starts from a sequence of parsed options. An operand that fails to parse is outside the model.
- File loading for `--model` and `--shader` is done by the engine and is opaque. It is modelled as an `Option` already inside the option: `None` when loading failed. Writing the scene to a file is not modelled; only the `-o` path is.
- The viewer is not modelled: its event handlers, the scene-data hand-over, the render loop and the return codes (main.cpp:208-211, 335, 340-344). The notice logging (main.cpp:83-84, 301-313) is not modelled either.
- `parameter_ptr` (main.cpp:17-37) is a pointer wrapper with no behaviour of its own, so it is not modelled.
- The engine's `UNDEFINED` shader type is left out. The model assumes every loaded shader has one of the six real stages; the source stores a shader under whatever type it reports, so a shader of undefined type would get a map entry and a place in the program that the model does not represent.
- The render state is modelled as a value: `AddShaders` returns the new state. In the source the state set is created fresh for the mesh, so nothing else can observe the in-place update.
- Object identity of textures is modelled as a serial number. The nodes a depth camera shares with the visible group are modelled as equal values, not as shared references.
