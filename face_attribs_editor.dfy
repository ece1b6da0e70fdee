/**
  The non-widget logic of `FaceAttribsEditor`
  (common/src/View/FaceAttribsEditor.cpp): whether the game has surface
  attributes, the flag labels and tooltips taken from the game
  configuration, and, for the selected faces, which attributes differ
  between them (the "multi" state of each editor).

  Face attributes are single-precision floats in the source and compared
  with `!=`; here they are reals compared exactly. A texture is identified
  by a number.
*/
module FaceAttribsEditor {
  import opened Wrappers

  /** A brush face, reduced to the attributes the editor shows. */
  datatype Face = Face(
    texture: nat,
    xOffset: real,
    yOffset: real,
    rotation: real,
    xScale: real,
    yScale: real,
    surfaceValue: real)

  /** The attributes that have a "multi" state. */
  datatype Attribute = Texture | XOffset | YOffset | Rotation | XScale | YScale | SurfaceValue

  /** The value of an attribute, of whichever kind it is. */
  datatype AttributeValue = TextureValue(texture: nat) | NumberValue(number: real)

  function ValueOf(f: Face, a: Attribute): AttributeValue
  {
    match a
    case Texture => TextureValue(f.texture)
    case XOffset => NumberValue(f.xOffset)
    case YOffset => NumberValue(f.yOffset)
    case Rotation => NumberValue(f.rotation)
    case XScale => NumberValue(f.xScale)
    case YScale => NumberValue(f.yScale)
    case SurfaceValue => NumberValue(f.surfaceValue)
  }

  /** Whether a face among `faces[1..k]` differs from `faces[0]` in attribute `a`. */
  ghost predicate DiffersBefore(faces: seq<Face>, a: Attribute, k: nat)
    requires 0 < |faces| && k <= |faces|
  {
    exists j :: 1 <= j < k && ValueOf(faces[j], a) != ValueOf(faces[0], a)
  }

  /** Whether the selected faces do not all agree on attribute `a`. */
  ghost predicate Mixed(faces: seq<Face>, a: Attribute)
    requires 0 < |faces|
  {
    DiffersBefore(faces, a, |faces|)
  }

  /** The "multi" flags `updateControls` computes. */
  datatype MultiFlags = MultiFlags(
    texture: bool,
    xOffset: bool,
    yOffset: bool,
    rotation: bool,
    xScale: bool,
    yScale: bool,
    surfaceValue: bool)
  {
    function Flag(a: Attribute): bool
    {
      match a
      case Texture => texture
      case XOffset => xOffset
      case YOffset => yOffset
      case Rotation => rotation
      case XScale => xScale
      case YScale => yScale
      case SurfaceValue => surfaceValue
    }
  }

  /** One entry of a game's flag configuration. */
  datatype FlagConfig = FlagConfig(name: string, description: string)

  /** The parts of a game configuration the editor reads. */
  datatype GameConfig = GameConfig(surfaceFlags: seq<FlagConfig>, contentFlags: seq<FlagConfig>)

  /** `hasSurfaceAttribs`: the game defines both surface flags and content flags. */
  function HasSurfaceAttribs(game: GameConfig): (r: bool)
  {
    |game.surfaceFlags| > 0 && |game.contentFlags| > 0
  }

  /** The names of the flags, in configuration order. */
  function FlagNames(flags: seq<FlagConfig>): (r: seq<string>)
    ensures |r| == |flags| && forall i :: 0 <= i < |flags| ==> r[i] == flags[i].name
  {
    seq(|flags|, i requires 0 <= i < |flags| => flags[i].name)
  }

  /** The descriptions of the flags, in configuration order. */
  function FlagDescriptions(flags: seq<FlagConfig>): (r: seq<string>)
    ensures |r| == |flags| && forall i :: 0 <= i < |flags| ==> r[i] == flags[i].description
  {
    seq(|flags|, i requires 0 <= i < |flags| => flags[i].description)
  }

  /**
    `getFlags`: appends the name and the description of every flag, in
    configuration order, so both lists grow by the number of flags.
  */
  method GetFlags(flags: seq<FlagConfig>, names: seq<string>, descriptions: seq<string>)
    returns (names': seq<string>, descriptions': seq<string>)
    ensures names' == names + FlagNames(flags)
    ensures descriptions' == descriptions + FlagDescriptions(flags)
    ensures |names'| - |names| == |descriptions'| - |descriptions| == |flags|
  {
    names', descriptions' := names, descriptions;
    for i := 0 to |flags|
      invariant names' == names + FlagNames(flags[..i])
      invariant descriptions' == descriptions + FlagDescriptions(flags[..i])
    {
      var flag := flags[i];
      names' := names' + [flag.name];
      descriptions' := descriptions' + [flag.description];
    }
    assert flags[..|flags|] == flags;
  }

  /**
    The aggregation loop of `updateControls`: each flag is accumulated with
    `|=` over the faces after the first and ends up true exactly when some
    face differs from the first in that attribute.
  */
  method AggregateMulti(faces: seq<Face>) returns (m: MultiFlags)
    requires |faces| > 0
    ensures forall a :: m.Flag(a) <==> Mixed(faces, a)
  {
    var textureMulti := false;
    var xOffsetMulti := false;
    var yOffsetMulti := false;
    var rotationMulti := false;
    var xScaleMulti := false;
    var yScaleMulti := false;
    var surfaceValueMulti := false;

    var texture := faces[0].texture;
    var xOffset := faces[0].xOffset;
    var yOffset := faces[0].yOffset;
    var rotation := faces[0].rotation;
    var xScale := faces[0].xScale;
    var yScale := faces[0].yScale;
    var surfaceValue := faces[0].surfaceValue;

    for i := 1 to |faces|
      invariant textureMulti <==> DiffersBefore(faces, Texture, i)
      invariant xOffsetMulti <==> DiffersBefore(faces, XOffset, i)
      invariant yOffsetMulti <==> DiffersBefore(faces, YOffset, i)
      invariant rotationMulti <==> DiffersBefore(faces, Rotation, i)
      invariant xScaleMulti <==> DiffersBefore(faces, XScale, i)
      invariant yScaleMulti <==> DiffersBefore(faces, YScale, i)
      invariant surfaceValueMulti <==> DiffersBefore(faces, SurfaceValue, i)
    {
      var face := faces[i];
      DiffersBeforeStep(faces, i);
      textureMulti := textureMulti || texture != face.texture;
      xOffsetMulti := xOffsetMulti || xOffset != face.xOffset;
      yOffsetMulti := yOffsetMulti || yOffset != face.yOffset;
      rotationMulti := rotationMulti || rotation != face.rotation;
      xScaleMulti := xScaleMulti || xScale != face.xScale;
      yScaleMulti := yScaleMulti || yScale != face.yScale;
      surfaceValueMulti := surfaceValueMulti || surfaceValue != face.surfaceValue;
    }
    m := MultiFlags(textureMulti, xOffsetMulti, yOffsetMulti, rotationMulti,
                    xScaleMulti, yScaleMulti, surfaceValueMulti);
  }

  /** One more face: the flag is the old flag or the new face's difference. */
  lemma DiffersBeforeStep(faces: seq<Face>, i: nat)
    requires 1 <= i < |faces|
    ensures forall a :: DiffersBefore(faces, a, i + 1) <==>
      DiffersBefore(faces, a, i) || ValueOf(faces[i], a) != ValueOf(faces[0], a)
  {
  }

  /** What the editor shows, without the widgets. */
  datatype Controls = Controls(
    surfaceEditorsShown: bool,
    surfaceFlagLabels: seq<string>,
    surfaceFlagTooltips: seq<string>,
    contentFlagLabels: seq<string>,
    contentFlagTooltips: seq<string>,
    multi: Option<MultiFlags>)   // None: no face selected, every editor disabled

  /**
    `updateControls`: the surface editors and their flag lists exist only
    when the game has surface attributes; with no face selected the editors
    are disabled, otherwise each shows whether the faces differ.
  */
  method UpdateControls(game: GameConfig, faces: seq<Face>) returns (c: Controls)
    ensures c.surfaceEditorsShown <==> game.surfaceFlags != [] && game.contentFlags != []
    ensures !c.surfaceEditorsShown ==>
      c.surfaceFlagLabels == c.surfaceFlagTooltips == c.contentFlagLabels == c.contentFlagTooltips == []
    ensures c.surfaceEditorsShown ==>
      && c.surfaceFlagLabels == FlagNames(game.surfaceFlags)
      && c.surfaceFlagTooltips == FlagDescriptions(game.surfaceFlags)
      && c.contentFlagLabels == FlagNames(game.contentFlags)
      && c.contentFlagTooltips == FlagDescriptions(game.contentFlags)
    ensures c.multi.None? <==> faces == []
    ensures c.multi.Some? ==> forall a :: c.multi.value.Flag(a) <==> Mixed(faces, a)
  {
    var shown := HasSurfaceAttribs(game);
    var surfaceLabels, surfaceTooltips, contentLabels, contentTooltips := [], [], [], [];
    if shown {
      surfaceLabels, surfaceTooltips := GetFlags(game.surfaceFlags, [], []);
      contentLabels, contentTooltips := GetFlags(game.contentFlags, [], []);
    }
    var multi: Option<MultiFlags> := None;
    if faces != [] {
      var flags := AggregateMulti(faces);
      multi := Some(flags);
    }
    c := Controls(shown, surfaceLabels, surfaceTooltips, contentLabels, contentTooltips, multi);
  }

  // ---------------------------------------------------------------------
  // Properties of the aggregation
  // ---------------------------------------------------------------------

  /** A single selected face is never "multi". */
  lemma SingleFaceNotMixed(faces: seq<Face>, a: Attribute)
    requires |faces| == 1
    ensures !Mixed(faces, a)
  {
  }

  /** Once a flag is set by the loop, later faces cannot clear it. */
  lemma DiffersBeforeMonotone(faces: seq<Face>, a: Attribute, k: nat, l: nat)
    requires 0 < |faces| && k <= l <= |faces|
    ensures DiffersBefore(faces, a, k) ==> DiffersBefore(faces, a, l)
  {
  }

  /** No attribute is "multi" exactly when every face agrees with the first on every attribute. */
  lemma NotMixedIffUniform(faces: seq<Face>)
    requires 0 < |faces|
    ensures (forall a :: !Mixed(faces, a)) <==>
      forall j, a :: 0 <= j < |faces| ==> ValueOf(faces[j], a) == ValueOf(faces[0], a)
  {
    if forall a :: !Mixed(faces, a) {
      forall j, a | 0 <= j < |faces| ensures ValueOf(faces[j], a) == ValueOf(faces[0], a) {
        if j > 0 && ValueOf(faces[j], a) != ValueOf(faces[0], a) {
          assert Mixed(faces, a);
        }
      }
    }
  }
}
