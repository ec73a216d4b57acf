/**
 * The level loader (`TilemapLoader`): queues a Tiled JSON map for loading
 * when a level has one, and turns a built map's object layers into the
 * level's platforms, enemies, items and player spawn point.
 */
module Tilemaps {
  import opened Wrappers

  datatype Point = Point(x: int, y: int)

  /** An object placed in a Tiled object layer; `kind` is its optional `type`. */
  datatype MapObject = MapObject(x: int, y: int, kind: Option<string>)

  datatype ObjectLayer = ObjectLayer(name: string, objects: seq<MapObject>)

  /** A built tile map, as far as object extraction reads it. */
  datatype TiledMap = TiledMap(objectLayers: seq<ObjectLayer>)

  /** The classified objects of a level. */
  datatype LevelObjects = LevelObjects(
    platforms: seq<MapObject>,
    enemies: seq<MapObject>,
    items: seq<MapObject>,
    playerSpawn: Option<Point>)

  datatype LoadedTilemap = LoadedTilemap(tilemap: TiledMap, objects: LevelObjects)

  /** A level's configuration: its key and, optionally, the path of its Tiled JSON file. */
  datatype LevelConfig = LevelConfig(key: string, tilemap: Option<string>)

  /** A `scene.load.tilemapTiledJSON(key, path)` call. */
  datatype LoadRequest = TilemapJson(key: string, path: string)

  /** The engine's map factory `scene.make.tilemap({key})`: None where it yields null. */
  type MapFactory = string -> Option<TiledMap>

  const PLATFORMS_LAYER: string := "platforms"
  const ENEMIES_LAYER: string := "enemies"
  const ITEMS_LAYER: string := "items"
  const PLAYER_LAYER: string := "player"

  /** `loadTilemap(key, path)`: the load call, with key and path passed on unchanged. */
  function LoadTilemap(key: string, path: string): (r: LoadRequest)
    ensures r.key == key && r.path == path
  {
    TilemapJson(key, path)
  }

  /** `preloadLevelAssets(config)`: loads the level's map exactly when the config names one. */
  function PreloadLevelAssets(config: LevelConfig): (r: seq<LoadRequest>)
    ensures |r| <= 1
    ensures |r| == 1 <==> config.tilemap.Some?
    ensures |r| == 1 ==> r[0] == TilemapJson(config.key, config.tilemap.value)
  {
    if config.tilemap.Some? then [LoadTilemap(config.key, config.tilemap.value)] else []
  }

  /** `o` sits in some layer named `name`. */
  ghost predicate InLayerNamed(layers: seq<ObjectLayer>, name: string, o: MapObject) {
    exists i :: 0 <= i < |layers| && layers[i].name == name && o in layers[i].objects
  }

  lemma InLayerNamedSplit(layers: seq<ObjectLayer>, name: string, o: MapObject)
    requires |layers| > 0
    ensures InLayerNamed(layers, name, o) <==>
      (layers[0].name == name && o in layers[0].objects) || InLayerNamed(layers[1..], name, o)
  {
    if InLayerNamed(layers, name, o) && !(layers[0].name == name && o in layers[0].objects) {
      var i :| 0 <= i < |layers| && layers[i].name == name && o in layers[i].objects;
      assert layers[1..][i - 1] == layers[i];
    }
  }

  /** The objects of every layer named `name`, layer by layer in map order. */
  function ObjectsNamed(layers: seq<ObjectLayer>, name: string): (r: seq<MapObject>)
    ensures forall o :: o in r <==> InLayerNamed(layers, name, o)
    ensures (forall i :: 0 <= i < |layers| ==> layers[i].name != name) ==> r == []
  {
    if |layers| == 0 then []
    else
      var rest := ObjectsNamed(layers[1..], name);
      assert forall o :: InLayerNamed(layers, name, o) <==>
        (layers[0].name == name && o in layers[0].objects) || InLayerNamed(layers[1..], name, o) by {
        forall o ensures InLayerNamed(layers, name, o) <==>
          (layers[0].name == name && o in layers[0].objects) || InLayerNamed(layers[1..], name, o)
        {
          InLayerNamedSplit(layers, name, o);
        }
      }
      if layers[0].name == name then layers[0].objects + rest else rest
  }

  /** The number of objects in the layers named `name`. */
  function CountNamed(layers: seq<ObjectLayer>, name: string): nat {
    if |layers| == 0 then 0
    else (if layers[0].name == name then |layers[0].objects| else 0) + CountNamed(layers[1..], name)
  }

  /** Nothing is lost or duplicated: a category holds as many objects as its layers do. */
  lemma {:induction false} ObjectsNamedCount(layers: seq<ObjectLayer>, name: string)
    ensures |ObjectsNamed(layers, name)| == CountNamed(layers, name)
    decreases |layers|
  {
    if |layers| > 0 {
      ObjectsNamedCount(layers[1..], name);
    }
  }

  /** The spawn point: the position of the first object in the first non-empty player layer. */
  function SpawnPoint(layers: seq<ObjectLayer>): (r: Option<Point>)
    ensures r.None? <==> ObjectsNamed(layers, PLAYER_LAYER) == []
    ensures r.Some? ==> var o := ObjectsNamed(layers, PLAYER_LAYER)[0]; r.value == Point(o.x, o.y)
  {
    var spawns := ObjectsNamed(layers, PLAYER_LAYER);
    if |spawns| == 0 then None else Some(Point(spawns[0].x, spawns[0].y))
  }

  /** Sorts the object layers by name; layers with any other name are ignored. */
  function ExtractObjects(m: TiledMap): (r: LevelObjects)
    ensures forall o :: o in r.platforms <==> InLayerNamed(m.objectLayers, "platforms", o)
    ensures forall o :: o in r.enemies <==> InLayerNamed(m.objectLayers, "enemies", o)
    ensures forall o :: o in r.items <==> InLayerNamed(m.objectLayers, "items", o)
    ensures r.playerSpawn == SpawnPoint(m.objectLayers)
    ensures |r.platforms| == CountNamed(m.objectLayers, "platforms")
    ensures |r.enemies| == CountNamed(m.objectLayers, "enemies")
    ensures |r.items| == CountNamed(m.objectLayers, "items")
  {
    ObjectsNamedCount(m.objectLayers, PLATFORMS_LAYER);
    ObjectsNamedCount(m.objectLayers, ENEMIES_LAYER);
    ObjectsNamedCount(m.objectLayers, ITEMS_LAYER);
    LevelObjects(
      ObjectsNamed(m.objectLayers, PLATFORMS_LAYER),
      ObjectsNamed(m.objectLayers, ENEMIES_LAYER),
      ObjectsNamed(m.objectLayers, ITEMS_LAYER),
      SpawnPoint(m.objectLayers))
  }

  /** `createFromTilemap(key)`: null when the factory builds no map, otherwise the map and its objects. */
  function CreateFromTilemap(make: MapFactory, key: string): (r: Option<LoadedTilemap>)
    ensures r.None? <==> make(key).None?
    ensures r.Some? ==> r.value.tilemap == make(key).value && r.value.objects == ExtractObjects(make(key).value)
  {
    match make(key)
    case None => None
    case Some(m) => Some(LoadedTilemap(m, ExtractObjects(m)))
  }

  /** `loadLevelFromJSON(config)`: builds the level's map under its key. */
  function LoadLevelFromJson(make: MapFactory, config: LevelConfig): (r: Option<LoadedTilemap>)
    ensures r.None? <==> make(config.key).None?
    ensures r.Some? ==> r.value.tilemap == make(config.key).value
    ensures r.Some? ==> r.value.objects == ExtractObjects(make(config.key).value)
  {
    CreateFromTilemap(make, config.key)
  }

  /**
   * One object in each of the platforms, enemies, items and player layers
   * gives one of each, and the spawn point is the player object's position.
   */
  lemma OneOfEach(platform: MapObject, enemy: MapObject, item: MapObject, spawn: MapObject)
    ensures var m := TiledMap([
        ObjectLayer("platforms", [platform]),
        ObjectLayer("enemies", [enemy]),
        ObjectLayer("items", [item]),
        ObjectLayer("player", [spawn])]);
      var r := ExtractObjects(m);
      && r.platforms == [platform]
      && r.enemies == [enemy]
      && r.items == [item]
      && r.playerSpawn == Some(Point(spawn.x, spawn.y))
  {
    var layers := [
        ObjectLayer("platforms", [platform]),
        ObjectLayer("enemies", [enemy]),
        ObjectLayer("items", [item]),
        ObjectLayer("player", [spawn])];
    var l3 := [layers[3]];
    var l2 := [layers[2]] + l3;
    var l1 := [layers[1]] + l2;
    assert layers == [layers[0]] + l1;
    assert l1[1..] == l2 && l2[1..] == l3 && l3[1..] == [];
    assert "platforms" != "enemies" && "platforms" != "items" && "platforms" != "player";
    assert "enemies" != "items" && "enemies" != "player" && "items" != "player";
    assert ObjectsNamed(l3, "platforms") == [] && ObjectsNamed(l3, "enemies") == [] && ObjectsNamed(l3, "items") == [];
    assert ObjectsNamed(l3, "player") == [spawn];
    assert ObjectsNamed(l2, "player") == [spawn] && ObjectsNamed(l2, "items") == [item];
    assert ObjectsNamed(l2, "platforms") == [] && ObjectsNamed(l2, "enemies") == [];
    assert ObjectsNamed(l1, "player") == [spawn] && ObjectsNamed(l1, "items") == [item];
    assert ObjectsNamed(l1, "enemies") == [enemy] && ObjectsNamed(l1, "platforms") == [];
  }
}
