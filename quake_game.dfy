/**
  Texture-path extraction of src/Model/QuakeGame.cpp (`doExtractTexturePaths`):
  the worldspawn entity's `wad` property is split on `;`, each piece is
  trimmed, and the non-empty pieces become paths, in their original order.

  `StringUtils::trim` has no body in this model; it is passed in as the
  function `trim`.
*/
module QuakeGame {
  import opened Wrappers
  import opened StringUtils

  /** `Model::PropertyKeys::Wad`. */
  const WadKey: String := "wad"

  /** The separator between the entries of the `wad` property. */
  const WadSeparator: char := ';'

  /** An entity, reduced to its property table. */
  datatype Entity = Entity(properties: map<String, String>)

  /** A map, reduced to its worldspawn entity, which may be missing. */
  datatype Map = Map(worldspawn: Option<Entity>)

  /** `IO::Path`, a wrapper over the path string. */
  datatype Path = Path(text: String)

  /** `Entity::property(key)`: the value, or the empty value when the key is absent. */
  function Property(e: Entity, key: String): String
  {
    if key in e.properties then e.properties[key] else []
  }

  /** The trimmed pieces, in order, with the empty ones dropped. */
  function NonEmptyTrimmed(pieces: seq<String>, trim: String -> String): seq<Path>
  {
    if pieces == [] then []
    else
      var init := NonEmptyTrimmed(pieces[..|pieces| - 1], trim);
      var t := trim(pieces[|pieces| - 1]);
      if t != [] then init + [Path(t)] else init
  }

  /** What `doExtractTexturePaths(map)` returns. */
  function TexturePaths(m: Map, trim: String -> String): seq<Path>
  {
    if m.worldspawn.None? then []
    else
      var wad := Property(m.worldspawn.value, WadKey);
      if wad == [] then [] else NonEmptyTrimmed(SplitTokens(wad, [WadSeparator]), trim)
  }

  /** `QuakeGame::doExtractTexturePaths`. */
  method ExtractTexturePaths(m: Map, trim: String -> String) returns (paths: seq<Path>)
    ensures paths == TexturePaths(m, trim)
  {
    paths := [];
    if m.worldspawn.None? {
      return;
    }
    var wadValue := Property(m.worldspawn.value, WadKey);
    if wadValue == [] {
      return;
    }
    var pathStrs := Split(wadValue, [WadSeparator]);
    for i := 0 to |pathStrs|
      invariant paths == NonEmptyTrimmed(pathStrs[..i], trim)
    {
      assert pathStrs[..i + 1][..i] == pathStrs[..i];
      var pathStr := trim(pathStrs[i]);
      if pathStr != [] {
        paths := paths + [Path(pathStr)];
      }
    }
    assert pathStrs[..|pathStrs|] == pathStrs;
  }

  // ---------------------------------------------------------------------
  // Properties
  // ---------------------------------------------------------------------

  /** Every piece kept is non-empty and is the trimmed form of some piece. */
  lemma {:induction false} NonEmptyTrimmedElements(pieces: seq<String>, trim: String -> String)
    ensures var r := NonEmptyTrimmed(pieces, trim);
      && |r| <= |pieces|
      && (forall k :: 0 <= k < |r| ==> r[k].text != [])
      && (forall k :: 0 <= k < |r| ==> exists j :: 0 <= j < |pieces| && r[k].text == trim(pieces[j]))
  {
    if pieces != [] {
      var init := pieces[..|pieces| - 1];
      NonEmptyTrimmedElements(init, trim);
      var r := NonEmptyTrimmed(pieces, trim);
      forall k | 0 <= k < |r| ensures exists j :: 0 <= j < |pieces| && r[k].text == trim(pieces[j]) {
        if k < |NonEmptyTrimmed(init, trim)| {
          var j :| 0 <= j < |init| && r[k].text == trim(init[j]);
          assert pieces[j] == init[j];
        } else {
          assert r[k].text == trim(pieces[|pieces| - 1]);
        }
      }
    }
  }

  /** Every trimmed piece that is non-empty is kept, and the kept ones keep their order. */
  lemma {:induction false} NonEmptyTrimmedKeepsOrder(pieces: seq<String>, trim: String -> String, i: nat, j: nat)
    requires i < j < |pieces| && trim(pieces[i]) != [] && trim(pieces[j]) != []
    ensures exists a, b ::
              && 0 <= a < b < |NonEmptyTrimmed(pieces, trim)|
              && NonEmptyTrimmed(pieces, trim)[a] == Path(trim(pieces[i]))
              && NonEmptyTrimmed(pieces, trim)[b] == Path(trim(pieces[j]))
  {
    var init := pieces[..|pieces| - 1];
    var r := NonEmptyTrimmed(pieces, trim);
    if j == |pieces| - 1 {
      NonEmptyTrimmedKept(init, trim, i);
      var a :| 0 <= a < |NonEmptyTrimmed(init, trim)| && NonEmptyTrimmed(init, trim)[a] == Path(trim(init[i]));
      assert r[a] == Path(trim(pieces[i]));
      assert r[|r| - 1] == Path(trim(pieces[j]));
    } else {
      NonEmptyTrimmedKeepsOrder(init, trim, i, j);
      var a, b :| 0 <= a < b < |NonEmptyTrimmed(init, trim)|
        && NonEmptyTrimmed(init, trim)[a] == Path(trim(init[i]))
        && NonEmptyTrimmed(init, trim)[b] == Path(trim(init[j]));
      assert r[a] == Path(trim(pieces[i])) && r[b] == Path(trim(pieces[j]));
    }
  }

  /** A piece whose trimmed form is non-empty appears in the result. */
  lemma {:induction false} NonEmptyTrimmedKept(pieces: seq<String>, trim: String -> String, i: nat)
    requires i < |pieces| && trim(pieces[i]) != []
    ensures exists a :: 0 <= a < |NonEmptyTrimmed(pieces, trim)| && NonEmptyTrimmed(pieces, trim)[a] == Path(trim(pieces[i]))
  {
    var init := pieces[..|pieces| - 1];
    var r := NonEmptyTrimmed(pieces, trim);
    if i == |pieces| - 1 {
      assert r[|r| - 1] == Path(trim(pieces[i]));
    } else {
      NonEmptyTrimmedKept(init, trim, i);
      var a :| 0 <= a < |NonEmptyTrimmed(init, trim)| && NonEmptyTrimmed(init, trim)[a] == Path(trim(init[i]));
      assert r[a] == Path(trim(pieces[i]));
    }
  }

  /** No worldspawn, or an empty `wad` property, gives no paths. */
  lemma NoWadNoPaths(m: Map, trim: String -> String)
    requires m.worldspawn.None? || Property(m.worldspawn.value, WadKey) == []
    ensures TexturePaths(m, trim) == []
  {
  }

  /**
    Every returned path is non-empty, is the trimmed form of a `;`-separated
    piece of the `wad` property, and there are no more paths than pieces.
  */
  lemma TexturePathsShape(m: Map, trim: String -> String)
    requires m.worldspawn.Some?
    ensures var wad := Property(m.worldspawn.value, WadKey);
      var pieces := SplitTokens(wad, [WadSeparator]);
      var r := TexturePaths(m, trim);
      && |r| <= |pieces|
      && (forall k :: 0 <= k < |r| ==> r[k].text != [])
      && (forall k :: 0 <= k < |r| ==> exists j :: 0 <= j < |pieces| && r[k].text == trim(pieces[j]))
  {
    var wad := Property(m.worldspawn.value, WadKey);
    NonEmptyTrimmedElements(SplitTokens(wad, [WadSeparator]), trim);
  }
}
