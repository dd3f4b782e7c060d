/** The map-object loader of the settings-dialog raycaster
    (src/fragments/f_main/f_menu_bar/f_settings_dialog/f_raycast/scene.cpp):
    a parsed map object becomes walls (one per path segment), the camera or
    a sprite, according to its "type" entry. */
module Scene {
  import opened Wrappers
  import opened Geometry

  /** A 2D affine transform, kept as its six coefficients. */
  datatype Matrix = Matrix(a: real, b: real, c: real, d: real, tx: real, ty: real)

  /** parser::Path: a polyline, closed or open. */
  datatype Path = Path(points: seq<Point>, closed: bool)

  /** parser::Object: a map object's key/value pairs, its path and its
      transform. */
  datatype MapObject = MapObject(dict: map<string, string>, path: Path, transform: Matrix)

  /** Wall: a line segment from a to b with a texture name. */
  datatype Wall = Wall(a: Point, b: Point, texture: string)

  /** Where a camera or sprite is put: the object's transform composed with
      the transform taken from the object's triangular path.  The
      composition itself (transformFromTriangle) is not part of this model,
      so both inputs are kept. */
  datatype Placement = Placement(transform: Matrix, triangle: Path)

  datatype Camera = Camera(placement: Placement)

  datatype Sprite = BadGuy(placement: Placement) | Ammo(placement: Placement)

  /** Exceptions the loader raises: std::map::at on a missing key, and the
      unknown-sprite EXCEPTION. */
  datatype SceneError = MissingKey(key: string) | UnknownSpriteType

  /** The number of walls a path yields: one per point when closed, one per
      consecutive pair when open. */
  function WallCount(p: Path): nat {
    if |p.points| == 0 then 0 else if p.closed then |p.points| else |p.points| - 1
  }

  /** The wall built at loop index i (i > 0, or i == 0 on a closed path):
      from the previous point, wrapping to the last for i == 0, to points[i].
      The transform applied to the segment is computed and discarded, so the
      endpoints are the raw path points. */
  function WallAtIndex(p: Path, i: nat, texture: string): (w: Wall)
    requires i < |p.points| && (i > 0 || p.closed)
  {
    var j := if i == 0 then |p.points| - 1 else i - 1;
    Wall(p.points[j], p.points[i], texture)
  }

  /** The walls the loop has appended after visiting indices 0..i-1. */
  function WallsUpTo(p: Path, i: nat, texture: string): (ws: seq<Wall>)
    requires i <= |p.points|
  {
    if i == 0 then []
    else if i - 1 == 0 && !p.closed then WallsUpTo(p, i - 1, texture)
    else WallsUpTo(p, i - 1, texture) + [WallAtIndex(p, i - 1, texture)]
  }

  /** All walls of a path. */
  function PathWalls(p: Path, texture: string): seq<Wall> {
    WallsUpTo(p, |p.points|, texture)
  }

  /** The walls built so far: how many, and the segment each one spans. */
  lemma {:induction false} WallsUpToShape(p: Path, i: nat, texture: string)
    requires i <= |p.points|
    ensures var ws := WallsUpTo(p, i, texture);
      |ws| == (if i == 0 then 0 else if p.closed then i else i - 1) &&
      (forall k :: 0 <= k < |ws| ==> ws[k].texture == texture) &&
      (p.closed && 0 < |ws| ==> ws[0].a == p.points[|p.points| - 1] && ws[0].b == p.points[0]) &&
      (p.closed ==> forall k :: 0 < k < |ws| ==> ws[k].a == p.points[k - 1] && ws[k].b == p.points[k]) &&
      (!p.closed ==> forall k :: 0 <= k < |ws| ==>
        ws[k].a == p.points[k] && ws[k].b == p.points[k + 1])
  {
    if i > 0 {
      WallsUpToShape(p, i - 1, texture);
    }
  }

  /** A path of n points yields n walls when closed, n - 1 when open and
      none when empty; every wall carries the object's texture. */
  lemma PathWallsCount(p: Path, texture: string)
    ensures |PathWalls(p, texture)| == WallCount(p)
    ensures |p.points| == 0 ==> PathWalls(p, texture) == []
    ensures forall w :: w in PathWalls(p, texture) ==> w.texture == texture
  {
    WallsUpToShape(p, |p.points|, texture);
  }

  /** Wall k of a closed path spans points[k-1] -> points[k], and the first
      one closes the loop from the last point back to the first. */
  lemma ClosedPathWalls(p: Path, texture: string, k: nat)
    requires p.closed && k < |p.points|
    ensures k < |PathWalls(p, texture)|
    ensures k > 0 ==> PathWalls(p, texture)[k] == Wall(p.points[k - 1], p.points[k], texture)
    ensures PathWalls(p, texture)[0] == Wall(p.points[|p.points| - 1], p.points[0], texture)
  {
    WallsUpToShape(p, |p.points|, texture);
  }

  /** Wall k of an open path spans points[k] -> points[k+1]. */
  lemma OpenPathWalls(p: Path, texture: string, k: nat)
    requires !p.closed && k + 1 < |p.points|
    ensures k < |PathWalls(p, texture)|
    ensures PathWalls(p, texture)[k] == Wall(p.points[k], p.points[k + 1], texture)
  {
    WallsUpToShape(p, |p.points|, texture);
  }

  /** constructSprite: "bad_guy" and "ammo" are the known subtypes; any
      other subtype raises, and so does a missing "subtype" entry. */
  function ConstructSprite(obj: MapObject): (r: Result<Sprite, SceneError>)
    ensures r.Ok? <==> "subtype" in obj.dict && obj.dict["subtype"] in {"bad_guy", "ammo"}
    ensures r.Ok? ==> r.value.placement == Placement(obj.transform, obj.path)
    ensures r.Ok? ==> (r.value.BadGuy? <==> obj.dict["subtype"] == "bad_guy")
    ensures "subtype" !in obj.dict ==> r == Err(MissingKey("subtype"))
    ensures "subtype" in obj.dict && r.Err? ==> r.error == UnknownSpriteType
  {
    if "subtype" !in obj.dict then Err(MissingKey("subtype"))
    else if obj.dict["subtype"] == "bad_guy" then Ok(BadGuy(Placement(obj.transform, obj.path)))
    else if obj.dict["subtype"] == "ammo" then Ok(Ammo(Placement(obj.transform, obj.path)))
    else Err(UnknownSpriteType)
  }

  /** The loaded scene: walls, the (optional) camera and sprites. */
  class Scene {
    var walls: seq<Wall>
    var camera: Option<Camera>
    var sprites: seq<Sprite>

    constructor ()
      ensures walls == [] && camera == None && sprites == []
    {
      walls := [];
      camera := None;
      sprites := [];
    }

    /** constructWalls: visit the path's indices in order, building the wall
        from the previous point (the last one for index 0 of a closed path;
        index 0 of an open path is skipped) and appending it.  The texture
        is looked up for each wall built, so a missing "texture" entry raises
        on the first wall, before anything is appended, and goes unnoticed
        when the path yields no wall. */
    method ConstructWalls(obj: MapObject) returns (outcome: Outcome<SceneError>)
      modifies this
      ensures camera == old(camera) && sprites == old(sprites)
      ensures outcome.Fail? <==> "texture" !in obj.dict && WallCount(obj.path) > 0
      ensures outcome.Fail? ==> outcome.error == MissingKey("texture") && walls == old(walls)
      ensures outcome.Pass? && WallCount(obj.path) == 0 ==> walls == old(walls)
      ensures outcome.Pass? && WallCount(obj.path) > 0 ==>
        walls == old(walls) + PathWalls(obj.path, obj.dict["texture"])
    {
      var points := obj.path.points;
      var texture := if "texture" in obj.dict then obj.dict["texture"] else "";
      PathWallsCount(obj.path, texture);
      var i := 0;
      while i < |points|
        invariant 0 <= i <= |points|
        invariant camera == old(camera) && sprites == old(sprites)
        invariant walls == old(walls) + WallsUpTo(obj.path, i, texture)
        invariant "texture" !in obj.dict ==> WallsUpTo(obj.path, i, texture) == []
      {
        var j: int := i - 1;
        if i == 0 {
          if obj.path.closed {
            j := |points| - 1;
          } else {
            i := i + 1;
            continue;
          }
        }
        if "texture" !in obj.dict {
          return Fail(MissingKey("texture"));
        }
        var wall := Wall(points[j], points[i], obj.dict["texture"]);
        assert wall == WallAtIndex(obj.path, i, texture);
        walls := walls + [wall];
        i := i + 1;
      }
      outcome := Pass;
    }

    /** addObject: dispatch on the "type" entry (std::map::at raises when it
        is missing).  "wall" appends the path's walls, "camera" replaces the
        camera, "sprite" appends one sprite, any other type changes
        nothing. */
    method AddObject(obj: MapObject) returns (outcome: Outcome<SceneError>)
      modifies this
      ensures "type" !in obj.dict ==>
        outcome == Fail(MissingKey("type")) && walls == old(walls) && camera == old(camera) && sprites == old(sprites)
      ensures "type" in obj.dict && obj.dict["type"] !in {"wall", "camera", "sprite"} ==>
        outcome.Pass? && walls == old(walls) && camera == old(camera) && sprites == old(sprites)
      ensures "type" in obj.dict && obj.dict["type"] == "wall" ==>
        camera == old(camera) && sprites == old(sprites) &&
        (outcome.Fail? <==> "texture" !in obj.dict && WallCount(obj.path) > 0) &&
        (outcome.Fail? ==> walls == old(walls)) &&
        (outcome.Pass? && WallCount(obj.path) > 0 ==>
          walls == old(walls) + PathWalls(obj.path, obj.dict["texture"])) &&
        (WallCount(obj.path) == 0 ==> outcome.Pass? && walls == old(walls))
      ensures "type" in obj.dict && obj.dict["type"] == "camera" ==>
        outcome.Pass? && camera == Some(Camera(Placement(obj.transform, obj.path))) &&
        walls == old(walls) && sprites == old(sprites)
      ensures "type" in obj.dict && obj.dict["type"] == "sprite" ==>
        walls == old(walls) && camera == old(camera) &&
        (ConstructSprite(obj).Err? ==> outcome == Fail(ConstructSprite(obj).error) && sprites == old(sprites)) &&
        (ConstructSprite(obj).Ok? ==> outcome.Pass? && sprites == old(sprites) + [ConstructSprite(obj).value])
    {
      if "type" !in obj.dict {
        return Fail(MissingKey("type"));
      }
      var kind := obj.dict["type"];
      if kind == "wall" {
        outcome := ConstructWalls(obj);
      } else if kind == "camera" {
        camera := Some(Camera(Placement(obj.transform, obj.path)));
        outcome := Pass;
      } else if kind == "sprite" {
        var s := ConstructSprite(obj);
        if s.Err? {
          return Fail(s.error);
        }
        sprites := sprites + [s.value];
        outcome := Pass;
      } else {
        outcome := Pass;
      }
    }
  }
}
