// utilities/shapeutils.py: cleaning a user-supplied shape name, colouring a
// shape by index, RGB or side, and choosing which saved shapes
// `addShapeToTransform` recreates.
module ShapeUtils {
  import opened Wrappers

  // ---------------------------------------------------------------------
  // filterUserInput
  // ---------------------------------------------------------------------

  /** A character `\w` matches: a letter, a digit or the underscore (ASCII). */
  predicate IsWordChar(c: char)
  {
    ('a' <= c <= 'z') || ('A' <= c <= 'Z') || ('0' <= c <= '9') || c == '_'
  }

  /** The word characters of `s`, in order. */
  function KeepWordChars(s: string): (r: string)
    ensures |r| <= |s|
    ensures forall i :: 0 <= i < |r| ==> IsWordChar(r[i])
    ensures forall c :: c in r <==> c in s && IsWordChar(c)
  {
    if s == [] then []
    else
      assert forall c :: c in s <==> c == s[0] || c in s[1..];
      if IsWordChar(s[0]) then [s[0]] + KeepWordChars(s[1..]) else KeepWordChars(s[1..])
  }

  /** Cleaning keeps the order of the characters: the cleaned concatenation is the concatenation of the cleaned parts. */
  lemma {:induction false} KeepWordCharsAppend(a: string, b: string)
    ensures KeepWordChars(a + b) == KeepWordChars(a) + KeepWordChars(b)
  {
    if a == [] {
      assert a + b == b;
    } else {
      assert (a + b)[1..] == a[1..] + b;
      KeepWordCharsAppend(a[1..], b);
    }
  }

  /** A string is left as it is exactly when every character of it is a word character. */
  lemma {:induction false} KeepWordCharsIdentity(s: string)
    ensures KeepWordChars(s) == s <==> forall i :: 0 <= i < |s| ==> IsWordChar(s[i])
  {
    if s != [] {
      KeepWordCharsIdentity(s[1..]);
      if !IsWordChar(s[0]) {
        assert |KeepWordChars(s)| < |s|;
      }
    }
  }

  /**
   * `filterUserInput`: the empty string becomes "untitled"; any other keeps
   * only its word characters, in order.
   */
  function FilterUserInput(userInput: string): (r: string)
    ensures userInput == [] ==> r == "untitled"
    ensures userInput != [] ==> |r| <= |userInput| && forall c :: c in r <==> c in userInput && IsWordChar(c)
    ensures forall i :: 0 <= i < |r| ==> IsWordChar(r[i])
  {
    if |userInput| > 0 then KeepWordChars(userInput) else "untitled"
  }

  /** Cleaning a name twice changes nothing more, so long as the first pass left something. */
  lemma FilterUserInputIdempotent(userInput: string)
    requires FilterUserInput(userInput) != []
    ensures FilterUserInput(FilterUserInput(userInput)) == FilterUserInput(userInput)
  {
    KeepWordCharsIdentity(FilterUserInput(userInput));
  }

  /** A non-empty input with no word character comes back empty, not "untitled". */
  lemma FilterUserInputCanBeEmpty()
    ensures FilterUserInput("a b") == "ab"
    ensures FilterUserInput("!?") == ""
  {
    var s := "a b";
    assert s[1..] == " b" && s[1..][1..] == "b" && s[1..][1..][1..] == "";
    var t := "!?";
    assert t[1..] == "?" && t[1..][1..] == "";
  }

  // ---------------------------------------------------------------------
  // Side tables
  // ---------------------------------------------------------------------

  /** An override colour, one float per channel. */
  datatype Rgb = Rgb(r: real, g: real, b: real)

  /** `SHADING_ENGINES`: the shading group of each side (0 centre, 1 left, 2 right, 3 centre). */
  const ShadingEngines: map<int, string> :=
    map[0 := "C_Controls_SG", 1 := "L_Controls_SG", 2 := "R_Controls_SG", 3 := "C_Controls_SG"]

  /** `SURFACE_SHADERS` as written: side 3 names the shading group rather than a surface shader. */
  const SurfaceShaders: map<int, string> :=
    map[0 := "C_Controls_SS", 1 := "L_Controls_SS", 2 := "R_Controls_SS", 3 := "C_Controls_SG"]

  /** `SURFACE_SHADERS` as evidently intended: side 3, a centre side, shares side 0's shader. */
  const SurfaceShadersCorrected: map<int, string> :=
    map[0 := "C_Controls_SS", 1 := "L_Controls_SS", 2 := "R_Controls_SS", 3 := "C_Controls_SS"]

  /** `COLOUR_RGB`: the shader colour of each side. */
  const ColourRgb: map<int, Rgb> :=
    map[0 := Rgb(1.0, 1.0, 0.0), 1 := Rgb(0.0, 0.0, 1.0), 2 := Rgb(1.0, 0.0, 0.0), 3 := Rgb(1.0, 1.0, 0.0)]

  /** `COLOR_INDEX`: the colour index of each side. */
  const ColorIndexBySide: map<int, int> := map[0 := 17, 1 := 6, 2 := 13, 3 := 17]

  /** The sides every table knows. */
  predicate IsSide(side: int)
  {
    0 <= side <= 3
  }

  /** Every table covers the sides 0 to 3, and side 3 repeats side 0 in each of them except the surface shaders. */
  lemma SideTables(side: int)
    ensures side in ShadingEngines <==> IsSide(side)
    ensures side in SurfaceShaders <==> IsSide(side)
    ensures side in ColourRgb <==> IsSide(side)
    ensures side in ColorIndexBySide <==> IsSide(side)
    ensures ShadingEngines[3] == ShadingEngines[0] && ColourRgb[3] == ColourRgb[0]
    ensures ColorIndexBySide[3] == ColorIndexBySide[0]
  {
  }

  /** As written, side 3's surface shader takes the name of side 3's shading group. */
  lemma SurfaceShaderNamesShadingGroup()
    ensures SurfaceShaders[3] == ShadingEngines[3]
    ensures SurfaceShaders[3] != SurfaceShaders[0]
  {
  }

  /** Corrected, no side's shader shares its shading group's name, and side 3 repeats side 0 as in the other tables. */
  lemma SurfaceShadersCorrectedDistinct(side: int)
    requires IsSide(side)
    ensures side in SurfaceShadersCorrected && SurfaceShadersCorrected[side] != ShadingEngines[side]
    ensures SurfaceShadersCorrected[3] == SurfaceShadersCorrected[0]
    ensures forall s :: s in SurfaceShaders && s != 3 ==> SurfaceShadersCorrected[s] == SurfaceShaders[s]
  {
  }

  /**
   * `getShaderNodes(side)` as written: the names of the side's surface shader
   * and shading group from the two tables; a side outside the tables raises
   * KeyError.
   */
  function ShaderNodes(side: int): (r: Result<(string, string)>)
    ensures r.Ok? <==> IsSide(side)
    ensures r.Err? ==> r.error == KeyError
    ensures r.Ok? ==> r.value == (SurfaceShaders[side], ShadingEngines[side])
  {
    if side in SurfaceShaders then Ok((SurfaceShaders[side], ShadingEngines[side])) else Err(KeyError)
  }

  /** As written, side 3 asks for a shader and a shading group of the same name. */
  lemma ShaderNodesSideThreeCollide()
    ensures ShaderNodes(3).Ok? && ShaderNodes(3).value.0 == ShaderNodes(3).value.1 == "C_Controls_SG"
  {
  }

  /**
   * `getShaderNodes(side)` with the corrected shader table: a shader whose
   * name differs from its shading group's.
   */
  function ShaderNodesCorrected(side: int): (r: Result<(string, string)>)
    ensures r.Ok? <==> IsSide(side)
    ensures r.Err? ==> r.error == KeyError
    ensures r.Ok? ==> r.value.0 == SurfaceShadersCorrected[side] && r.value.1 == ShadingEngines[side]
    ensures r.Ok? ==> r.value.0 != r.value.1
  {
    if side in SurfaceShadersCorrected then
      SurfaceShadersCorrectedDistinct(side);
      Ok((SurfaceShadersCorrected[side], ShadingEngines[side]))
    else Err(KeyError)
  }

  /** The correction changes side 3 only, and never the shading group. */
  lemma ShaderNodesCorrectedAgrees(side: int)
    ensures side != 3 ==> ShaderNodesCorrected(side) == ShaderNodes(side)
    ensures ShaderNodesCorrected(side).Ok? ==> ShaderNodesCorrected(side).value.1 == ShaderNodes(side).value.1
  {
    if IsSide(side) {
      SurfaceShadersCorrectedDistinct(side);
    }
  }

  // ---------------------------------------------------------------------
  // Colouring a shape
  // ---------------------------------------------------------------------

  /** The values `applyColorRGB` writes to overrideColorR, G and B as written: the red channel, three times. */
  function RgbWritten(colorRgb: Rgb): (r: Rgb)
    ensures r.r == r.g == r.b
  {
    Rgb(colorRgb.r, colorRgb.r, colorRgb.r)
  }

  /** The colour arrives as given exactly when it is a grey. */
  lemma RgbWrittenKeepsGreysOnly(colorRgb: Rgb)
    ensures RgbWritten(colorRgb) == colorRgb <==> colorRgb.g == colorRgb.r && colorRgb.b == colorRgb.r
  {
  }

  /** Side 1's blue is written as black. */
  lemma RgbWrittenLosesBlue()
    ensures RgbWritten(ColourRgb[1]) == Rgb(0.0, 0.0, 0.0) != ColourRgb[1]
  {
  }

  /** A shape node's drawing overrides and the shading group it was added to. */
  class ShapeNode {
    var overrideEnabled: bool
    var overrideRGBColors: bool
    var overrideColor: int
    var overrideColorRgb: Rgb
    var shadingGroup: Option<string>
    /** `hasFn(kMesh) or hasFn(kNurbsSurface)`: a shape that is shaded rather than drawn in an override colour. */
    const isSurface: bool

    constructor (isSurface: bool)
      ensures this.isSurface == isSurface
      ensures !overrideEnabled && !overrideRGBColors && overrideColor == 0
      ensures overrideColorRgb == Rgb(0.0, 0.0, 0.0) && shadingGroup.None?
    {
      this.isSurface := isSurface;
      overrideEnabled := false;
      overrideRGBColors := false;
      overrideColor := 0;
      overrideColorRgb := Rgb(0.0, 0.0, 0.0);
      shadingGroup := None;
    }

    /** `applyColorIndex`: overrides on, RGB colours off, and the colour index set. */
    method ApplyColorIndex(colorIndex: int)
      modifies this
      ensures overrideEnabled && !overrideRGBColors && overrideColor == colorIndex
      ensures overrideColorRgb == old(overrideColorRgb) && shadingGroup == old(shadingGroup)
    {
      overrideEnabled := true;
      overrideRGBColors := false;
      overrideColor := colorIndex;
    }

    /** `applyColorRGB` as written: overrides and RGB colours on, and the red channel written to all three. */
    method ApplyColorRGB(colorRgb: Rgb)
      modifies this
      ensures overrideEnabled && overrideRGBColors && overrideColorRgb == RgbWritten(colorRgb)
      ensures overrideColor == old(overrideColor) && shadingGroup == old(shadingGroup)
    {
      overrideEnabled := true;
      overrideRGBColors := true;
      overrideColorRgb := Rgb(colorRgb.r, colorRgb.r, colorRgb.r);
    }

    /** `applyColorRGB` as evidently intended: each channel written from its own component. */
    method ApplyColorRGBCorrected(colorRgb: Rgb)
      modifies this
      ensures overrideEnabled && overrideRGBColors && overrideColorRgb == colorRgb
      ensures overrideColor == old(overrideColor) && shadingGroup == old(shadingGroup)
    {
      overrideEnabled := true;
      overrideRGBColors := true;
      overrideColorRgb := Rgb(colorRgb.r, colorRgb.g, colorRgb.b);
    }

    /**
     * `applyColorSide`: a mesh or NURBS surface is added to the side's
     * shading group; any other shape gets the side's colour index. A side
     * outside the tables raises KeyError and changes nothing.
     */
    method ApplyColorSide(side: int) returns (s: Status)
      modifies this
      ensures s.Raised? <==> !IsSide(side)
      ensures s.Raised? ==> s.error == KeyError
      ensures !IsSide(side) || isSurface ==>
        overrideEnabled == old(overrideEnabled) && overrideRGBColors == old(overrideRGBColors) && overrideColor == old(overrideColor)
      ensures overrideColorRgb == old(overrideColorRgb)
      ensures IsSide(side) && isSurface ==> shadingGroup == Some(ShadingEngines[side])
      ensures !(IsSide(side) && isSurface) ==> shadingGroup == old(shadingGroup)
      ensures IsSide(side) && !isSurface ==> overrideEnabled && !overrideRGBColors && overrideColor == ColorIndexBySide[side]
    {
      if isSurface {
        var nodes := ShaderNodes(side);
        if nodes.Err? {
          return Raised(nodes.error);
        }
        // `sets(..., forceElement=shadingGrp)`: the shape joins the group, created first if missing.
        shadingGroup := Some(nodes.value.1);
        s := Done;
      } else {
        if side !in ColorIndexBySide {
          return Raised(KeyError);
        }
        ApplyColorIndex(ColorIndexBySide[side]);
        s := Done;
      }
    }

    /**
     * `colorizeShape(colorIndex=, colorRGB=, side=)`: a colour index wins
     * over an RGB colour, which wins over a side; with none of them nothing
     * changes. As written the RGB colour goes through `applyColorRGB`.
     */
    method ColorizeShape(colorIndex: Option<int>, colorRgb: Option<Rgb>, side: Option<int>) returns (s: Status)
      modifies this
      ensures s.Raised? ==> colorIndex.None? && colorRgb.None? && side.Some? && !IsSide(side.value)
      ensures colorIndex.Some? ==>
        s.Done? && overrideEnabled && !overrideRGBColors && overrideColor == colorIndex.value
        && overrideColorRgb == old(overrideColorRgb) && shadingGroup == old(shadingGroup)
      ensures colorIndex.None? && colorRgb.Some? ==>
        s.Done? && overrideEnabled && overrideRGBColors && overrideColorRgb == RgbWritten(colorRgb.value)
        && overrideColor == old(overrideColor) && shadingGroup == old(shadingGroup)
      ensures colorIndex.None? && colorRgb.None? && side.Some? && IsSide(side.value) ==>
        s.Done? && overrideColorRgb == old(overrideColorRgb)
        && (isSurface ==> shadingGroup == Some(ShadingEngines[side.value]) && overrideColor == old(overrideColor))
        && (!isSurface ==> overrideColor == ColorIndexBySide[side.value] && shadingGroup == old(shadingGroup))
      ensures colorIndex.None? && colorRgb.None? && side.None? ==>
        s.Done? && overrideEnabled == old(overrideEnabled) && overrideRGBColors == old(overrideRGBColors)
        && overrideColor == old(overrideColor) && overrideColorRgb == old(overrideColorRgb) && shadingGroup == old(shadingGroup)
    {
      if colorIndex.Some? {
        ApplyColorIndex(colorIndex.value);
        return Done;
      }
      if colorRgb.Some? {
        ApplyColorRGB(colorRgb.value);
        return Done;
      }
      if side.Some? {
        s := ApplyColorSide(side.value);
        return;
      }
      s := Done;
    }

    /** `colorizeShape` over the corrected `applyColorRGB`: the RGB colour arrives as given. */
    method ColorizeShapeCorrected(colorIndex: Option<int>, colorRgb: Option<Rgb>, side: Option<int>) returns (s: Status)
      modifies this
      ensures s.Raised? ==> colorIndex.None? && colorRgb.None? && side.Some? && !IsSide(side.value)
      ensures colorIndex.Some? ==>
        s.Done? && overrideEnabled && !overrideRGBColors && overrideColor == colorIndex.value
        && overrideColorRgb == old(overrideColorRgb) && shadingGroup == old(shadingGroup)
      ensures colorIndex.None? && colorRgb.Some? ==>
        s.Done? && overrideEnabled && overrideRGBColors && overrideColorRgb == colorRgb.value
        && overrideColor == old(overrideColor) && shadingGroup == old(shadingGroup)
      ensures colorIndex.None? && colorRgb.None? && side.Some? && IsSide(side.value) ==>
        s.Done? && overrideColorRgb == old(overrideColorRgb)
        && (isSurface ==> shadingGroup == Some(ShadingEngines[side.value]) && overrideColor == old(overrideColor))
        && (!isSurface ==> overrideColor == ColorIndexBySide[side.value] && shadingGroup == old(shadingGroup))
      ensures colorIndex.None? && colorRgb.None? && side.None? ==>
        s.Done? && overrideEnabled == old(overrideEnabled) && overrideRGBColors == old(overrideRGBColors)
        && overrideColor == old(overrideColor) && overrideColorRgb == old(overrideColorRgb) && shadingGroup == old(shadingGroup)
    {
      if colorIndex.Some? {
        ApplyColorIndex(colorIndex.value);
        return Done;
      }
      if colorRgb.Some? {
        ApplyColorRGBCorrected(colorRgb.value);
        return Done;
      }
      if side.Some? {
        s := ApplyColorSide(side.value);
        return;
      }
      s := Done;
    }
  }

  // ---------------------------------------------------------------------
  // addShapeToTransform
  // ---------------------------------------------------------------------

  /** The `apiType` of a saved shape entry, as far as `__createshape__` tells them apart. */
  datatype ApiType = NurbsCurve | NurbsSurface | Mesh | OtherApiType

  /** `__createshape__`: the shape types with a creator. */
  predicate HasCreator(apiType: ApiType)
  {
    apiType.NurbsCurve? || apiType.NurbsSurface? || apiType.Mesh?
  }

  /**
   * `addShapeToTransform`: None when no shape file is found under the name
   * (`items` is None); otherwise the entries that get a shape, as indices
   * into `items` in file order. An entry whose type has no creator is skipped.
   */
  method AddShapeToTransform(items: Option<seq<ApiType>>) returns (shapes: Option<seq<nat>>)
    ensures shapes.None? <==> items.None?
    ensures shapes.Some? ==>
      && (forall k: nat :: k in shapes.value <==> k < |items.value| && HasCreator(items.value[k]))
      && (forall i, j :: 0 <= i < j < |shapes.value| ==> shapes.value[i] < shapes.value[j])
  {
    if items.None? {
      return None;
    }
    var entries := items.value;
    var created: seq<nat> := [];
    for i := 0 to |entries|
      invariant forall k: nat :: k in created <==> k < i && HasCreator(entries[k])
      invariant forall p, q :: 0 <= p < q < |created| ==> created[p] < created[q]
      invariant forall p :: 0 <= p < |created| ==> created[p] < i
    {
      if !HasCreator(entries[i]) {
        continue;
      }
      created := created + [i];
    }
    shapes := Some(created);
  }

  /** Exactly the entries with a creator get a shape, so a file of creatable entries gets one shape each, in file order. */
  lemma AllCreatableGetShapes(entries: seq<ApiType>, shapes: seq<nat>)
    requires forall k: nat :: k in shapes <==> k < |entries| && HasCreator(entries[k])
    requires forall i, j :: 0 <= i < j < |shapes| ==> shapes[i] < shapes[j]
    requires forall k :: 0 <= k < |entries| ==> HasCreator(entries[k])
    ensures shapes == seq(|entries|, k => k)
  {
    forall i | 0 <= i < |shapes|
      ensures shapes[i] < |entries|
    {
      assert shapes[i] in shapes;
    }
    IncreasingCoverIsRange(shapes, |entries|);
  }

  /** A strictly increasing sequence of naturals below `n` that holds each of them is `0, 1, ..., n - 1`. */
  lemma {:induction false} IncreasingCoverIsRange(s: seq<nat>, n: nat)
    requires forall i :: 0 <= i < |s| ==> s[i] < n
    requires forall k: nat :: k < n ==> k in s
    requires forall i, j :: 0 <= i < j < |s| ==> s[i] < s[j]
    decreases |s|
    ensures s == seq(n, k => k)
  {
    if s == [] {
      assert 0 !in s;
    } else {
      var top := s[|s| - 1];
      assert n - 1 in s;
      var j :| 0 <= j < |s| && s[j] == n - 1;
      assert s[j] <= top;
      var front := s[..|s| - 1];
      forall k: nat | k < n - 1
        ensures k in front
      {
        assert k in s;
        var i :| 0 <= i < |s| && s[i] == k;
        assert i != |s| - 1;
        assert front[i] == k;
      }
      IncreasingCoverIsRange(front, n - 1);
      assert s == front + [n - 1];
    }
  }
}
