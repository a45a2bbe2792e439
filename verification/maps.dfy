/** The map manager: the comma-separated layer-list parser, the cache of
    loaded maps and the queries on the current map (viewport scale, spawn
    point). A map's properties are a key-to-value map; loading a map file
    from disk is a parameter `disk` that maps a path to the map it holds
    (a path missing from it fails to load). */
module Maps {
  import opened Wrappers
  import opened JavaText

  /** A value in a map's or map object's properties. */
  datatype Prop = StrProp(text: string) | IntProp(number: int) | FloatProp(decimal: real) | BoolProp(flag: bool)

  /** A tiled map: its properties and, per layer, the properties of the layer's objects. */
  datatype TiledMap = TiledMap(properties: map<string, Prop>, layers: seq<seq<map<string, Prop>>>)

  datatype Point = Point(x: real, y: real)

  /** The exceptions the map manager raises or lets through. */
  datatype Failure =
    | RuntimeError(message: string)
    | NullPointer
    | ClassCast
    | IndexOutOfBounds

  // ---------------------------------------------------------------------------
  // getLayerArrayFromMapProperties

  /** A field of the list parses: an empty field is skipped, any other must be an int. */
  predicate FieldOk(field: string)
  {
    field == "" || ParseInt(field).Some?
  }

  /** The value a parsed field leaves in the array: 0 (the array's initial
      value) for an empty field. */
  function FieldValue(field: string): int
    requires FieldOk(field)
  {
    if field == "" then 0 else ParseInt(field).value
  }

  /** The layer indices listed in a property string, or None where a field
      is not an int. */
  function LayerList(s: string): Option<seq<int>>
  {
    var fields := Split(s, ',');
    if |fields| == 0 || fields[0] == "" then Some([])
    else if forall i :: 0 <= i < |fields| ==> FieldOk(fields[i]) then
      Some(seq(|fields|, i requires 0 <= i < |fields| && FieldOk(fields[i]) => FieldValue(fields[i])))
    else None
  }

  /** The message every failure of the layer parser becomes. */
  function LayerError(key: string): Failure
  {
    RuntimeError("Error loading layer: " + key)
  }

  /** The layer array read from property `key`: a missing or non-string
      property, like a bad field, becomes the layer error. */
  function LayerArray(props: map<string, Prop>, key: string): Result<seq<int>, Failure>
  {
    if key in props && props[key].StrProp? then
      match LayerList(props[key].text)
      case Some(layers) => Ok(layers)
      case None => Err(LayerError(key))
    else Err(LayerError(key))
  }

  /** getLayerArrayFromMapProperties: splits the property on commas and fills
      a zero-initialised int array field by field, skipping empty fields. */
  method LayerArrayFromProperties(props: map<string, Prop>, key: string) returns (r: Result<seq<int>, Failure>)
    ensures r == LayerArray(props, key)
  {
    if !(key in props && props[key].StrProp?) {
      return Err(LayerError(key));
    }
    var fields := Split(props[key].text, ',');
    if |fields| == 0 || fields[0] == "" {
      return Ok([]);
    }
    var layers := new int[|fields|](_ => 0);
    var i := 0;
    while i < |fields|
      invariant 0 <= i <= |fields|
      invariant forall j :: 0 <= j < i ==> FieldOk(fields[j]) && layers[j] == FieldValue(fields[j])
      invariant forall j :: i <= j < |fields| ==> layers[j] == 0
    {
      if fields[i] != "" {
        var parsed := ParseInt(fields[i]);
        if parsed.None? {
          return Err(LayerError(key));
        }
        layers[i] := parsed.value;
      }
      i := i + 1;
    }
    r := Ok(layers[..]);
    assert layers[..] == LayerList(props[key].text).value;
  }

  /** The empty string and a list whose first field is empty both yield no layers. */
  lemma LayerListEmpty(rest: string)
    ensures LayerList("") == Some([])
    ensures LayerList("," + rest) == Some([])
  {
    assert Split("", ',') == [""];
    var s := "," + rest;
    FirstPieceEmpty(s, ',');
  }

  lemma FirstPieceEmpty(s: string, sep: char)
    requires |s| > 0 && s[0] == sep
    ensures |Split(s, sep)| == 0 || Split(s, sep)[0] == ""
  {
    assert Pieces(s, sep)[0] == "";
  }

  /** Otherwise there is one layer per field left after dropping trailing
      empty fields, an empty field in between counting as layer 0. */
  lemma LayerListFields(s: string)
    requires LayerList(s).Some?
    requires |Split(s, ',')| > 0 && Split(s, ',')[0] != ""
    ensures var fields, layers := Split(s, ','), LayerList(s).value;
      && |layers| == |fields|
      && forall i :: 0 <= i < |fields| ==>
           if fields[i] == "" then layers[i] == 0 else ParseInt(fields[i]) == Some(layers[i])
  {
  }

  /** The parser fails exactly when the first field is set and some field is
      neither empty nor an int. */
  lemma LayerListFailure(s: string)
    ensures LayerList(s).None? <==>
      var fields := Split(s, ',');
      |fields| > 0 && fields[0] != "" && exists i :: 0 <= i < |fields| && fields[i] != "" && ParseInt(fields[i]).None?
  {
  }

  /** The property string for a list of ints, as written in the map file. */
  function JoinInts(ls: seq<int>): (r: seq<string>)
    ensures |r| == |ls|
  {
    seq(|ls|, i requires 0 <= i < |ls| => IntToString(ls[i]))
  }

  lemma IntToStringHasNoComma(n: int)
    ensures ',' !in IntToString(n)
  {
    var s := IntToString(n);
    forall k | 0 <= k < |s| ensures s[k] != ',' {
      if n < 0 && k > 0 {
        assert s[k] == NatDigits(-n)[k - 1];
      }
    }
  }

  lemma SplitJoinInts(ls: seq<int>)
    requires |ls| > 0
    ensures Split(Join(JoinInts(ls), ','), ',') == JoinInts(ls)
  {
    var parts := JoinInts(ls);
    forall i | 0 <= i < |parts| ensures ',' !in parts[i] {
      IntToStringHasNoComma(ls[i]);
    }
    JoinNonEmpty(parts, ',');
    SplitJoin(parts, ',');
  }

  /** Writing int layer indices comma-separated and parsing the property gives
      the indices back. */
  lemma LayerListRoundTrip(ls: seq<int>)
    requires |ls| > 0 && forall i :: 0 <= i < |ls| ==> InInt32(ls[i])
    ensures LayerList(Join(JoinInts(ls), ',')) == Some(ls)
  {
    var parts := JoinInts(ls);
    SplitJoinInts(ls);
    forall i | 0 <= i < |parts| ensures FieldOk(parts[i]) && FieldValue(parts[i]) == ls[i] {
      ParseFormattedInt(ls[i]);
    }
    var fields := Split(Join(parts, ','), ',');
    assert fields == parts && fields[0] != "";
    assert seq(|fields|, i requires 0 <= i < |fields| && FieldOk(fields[i]) => FieldValue(fields[i])) == ls;
  }

  lemma JoinNonEmpty(parts: seq<string>, sep: char)
    requires |parts| > 0 && parts[0] != ""
    ensures Join(parts, sep) != ""
  {
    if |parts| > 1 {
      assert Join(parts, sep) == parts[0] + [sep] + Join(parts[1..], sep);
    }
  }

  // ---------------------------------------------------------------------------
  // getSpawn

  /** `(float)props.get(key)`: a missing property fails on unboxing, one that
      is not a float on the cast. */
  function UnboxFloat(props: map<string, Prop>, key: string): (r: Result<real, Failure>)
    ensures r.Ok? <==> key in props && props[key].FloatProp?
    ensures r.Err? ==> r.error == (if key in props then ClassCast else NullPointer)
  {
    if key !in props then Err(NullPointer)
    else if !props[key].FloatProp? then Err(ClassCast)
    else Ok(props[key].decimal)
  }

  /** The position of a spawn object: x is unboxed completely before y is read. */
  function SpawnPoint(props: map<string, Prop>): Result<Point, Failure>
  {
    var x := UnboxFloat(props, "x");
    if x.Err? then Err(x.error)
    else
      var y := UnboxFloat(props, "y");
      if y.Err? then Err(y.error)
      else Ok(Point(x.value, y.value))
  }

  /** getSpawn's search: the position of the first object with a "spawn"
      property. */
  function FindSpawn(objects: seq<map<string, Prop>>): (r: Result<Point, Failure>)
  {
    if |objects| == 0 then Err(RuntimeError("Spawn not set"))
    else if "spawn" in objects[0] then SpawnPoint(objects[0])
    else FindSpawn(objects[1..])
  }

  predicate HasSpawn(objects: seq<map<string, Prop>>, i: int)
  {
    0 <= i < |objects| && "spawn" in objects[i]
  }

  /** Object i is the first one marked as the spawn, and p is its position. */
  predicate SpawnAt(objects: seq<map<string, Prop>>, i: int, p: Point)
  {
    && HasSpawn(objects, i)
    && (forall j :: 0 <= j < i ==> !HasSpawn(objects, j))
    && "x" in objects[i] && objects[i]["x"] == FloatProp(p.x)
    && "y" in objects[i] && objects[i]["y"] == FloatProp(p.y)
  }

  /** The map loadMap(path) would make current, if it is cached or on disk. */
  function MapAt(path: string, loaded: map<string, TiledMap>, disk: map<string, TiledMap>): Option<TiledMap>
  {
    if path in loaded then Some(loaded[path]) else if path in disk then Some(disk[path]) else None
  }

  /** `mapProperties.get(key, Integer.class)` unboxed to a number: a missing
      property fails on unboxing, one that is not an int on the cast. */
  function UnboxInt(props: map<string, Prop>, key: string): (r: Result<int, Failure>)
    ensures r.Ok? <==> key in props && props[key].IntProp?
    ensures r.Err? ==> r.error == (if key in props then ClassCast else NullPointer)
  {
    if key !in props then Err(NullPointer)
    else if !props[key].IntProp? then Err(ClassCast)
    else Ok(props[key].number)
  }

  /** The viewport scale, if set, is a float. */
  predicate ViewportOk(props: map<string, Prop>)
  {
    "viewportScalar" in props ==> props["viewportScalar"].FloatProp?
  }

  /** The game's teleported() callback, which loadMap runs last, as far as it
      can fail: getMapDimensions unboxes width and height,
      getCollisionObjects and getInteractObjects fetch the layers at the
      collision and interaction indices, and getMapPixelDimensions unboxes
      width, height and tilewidth. */
  function Teleported(m: TiledMap, collision: int, interact: int): (r: Result<(), Failure>)
    ensures r.Ok? <==>
      && UnboxInt(m.properties, "width").Ok? && UnboxInt(m.properties, "height").Ok?
      && 0 <= collision < |m.layers| && 0 <= interact < |m.layers|
      && UnboxInt(m.properties, "tilewidth").Ok?
  {
    var width := UnboxInt(m.properties, "width");
    var height := UnboxInt(m.properties, "height");
    var tile := UnboxInt(m.properties, "tilewidth");
    if width.Err? then Err(width.error)
    else if height.Err? then Err(height.error)
    else if !(0 <= collision < |m.layers|) then Err(IndexOutOfBounds)
    else if !(0 <= interact < |m.layers|) then Err(IndexOutOfBounds)
    else if tile.Err? then Err(tile.error)
    else Ok(())
  }

  /** How loadMap ends once map m is current: the layers are read, then the
      viewport scale must be a float, then the callback runs. */
  function InstallOutcome(m: TiledMap): Result<TiledMap, Failure>
  {
    var props := m.properties;
    if !MapManager.LayersOk(props) then Err(RuntimeError("Error loading layers"))
    else if !ViewportOk(props) then Err(ClassCast)
    else
      var callback := Teleported(m, props["collisionLayer"].number, props["interactLayer"].number);
      if callback.Err? then Err(callback.error) else Ok(m)
  }

  /** loadMap(path) returns normally: the map is found, its layers read, its
      viewport scale, if set, is a float, and the callback does not throw. */
  predicate Loads(path: string, loaded: map<string, TiledMap>, disk: map<string, TiledMap>)
  {
    && MapAt(path, loaded, disk).Some?
    && InstallOutcome(MapAt(path, loaded, disk).value).Ok?
  }

  /** A map loads exactly when its layer properties read, its scale is a
      float if set, its width, height and tile width are ints, and the
      collision and interaction layers it names exist. */
  lemma LoadsIff(path: string, loaded: map<string, TiledMap>, disk: map<string, TiledMap>)
    ensures Loads(path, loaded, disk) <==>
      && MapAt(path, loaded, disk).Some?
      && var m := MapAt(path, loaded, disk).value;
      && MapManager.LayersOk(m.properties) && ViewportOk(m.properties)
      && "width" in m.properties && m.properties["width"].IntProp?
      && "height" in m.properties && m.properties["height"].IntProp?
      && "tilewidth" in m.properties && m.properties["tilewidth"].IntProp?
      && 0 <= m.properties["collisionLayer"].number < |m.layers|
      && 0 <= m.properties["interactLayer"].number < |m.layers|
  {
  }

  /** "Spawn not set" exactly when no object is marked as the spawn; otherwise
      the first marked object decides the result, and a found position is
      that object's x and y. */
  lemma {:induction false} FindSpawnFirst(objects: seq<map<string, Prop>>)
    ensures FindSpawn(objects) == Err(RuntimeError("Spawn not set")) <==> forall i :: 0 <= i < |objects| ==> !HasSpawn(objects, i)
    ensures FindSpawn(objects).Ok? ==>
      exists i :: SpawnAt(objects, i, FindSpawn(objects).value)
  {
    if |objects| > 0 && "spawn" !in objects[0] {
      FindSpawnFirst(objects[1..]);
      forall i | 0 <= i < |objects| - 1
        ensures HasSpawn(objects[1..], i) == HasSpawn(objects, i + 1)
      {
      }
      if forall i :: 0 <= i < |objects[1..]| ==> !HasSpawn(objects[1..], i) {
        forall i | 0 <= i < |objects| ensures !HasSpawn(objects, i) {
          if i > 0 {
            assert !HasSpawn(objects[1..], i - 1);
          }
        }
      }
      if FindSpawn(objects).Ok? {
        var i :| SpawnAt(objects[1..], i, FindSpawn(objects).value);
        forall j | 0 <= j < i + 1 ensures !HasSpawn(objects, j) {
          if j > 0 {
            assert !HasSpawn(objects[1..], j - 1);
          }
        }
        assert SpawnAt(objects, i + 1, FindSpawn(objects).value);
      }
    } else if |objects| > 0 {
      assert HasSpawn(objects, 0);
      if FindSpawn(objects).Ok? {
        assert SpawnAt(objects, 0, FindSpawn(objects).value);
      }
    }
  }

  /** The first spawn object's position decides: x is read before y, so an
      x of the wrong type fails with a ClassCastException even when y is
      missing, and a missing y only fails once x has been read. */
  lemma {:induction false} FindSpawnUnboxing(objects: seq<map<string, Prop>>, i: int)
    requires HasSpawn(objects, i) && forall j :: 0 <= j < i ==> !HasSpawn(objects, j)
    ensures var props := objects[i];
      && ("x" !in props ==> FindSpawn(objects) == Err(NullPointer))
      && ("x" in props && !props["x"].FloatProp? ==> FindSpawn(objects) == Err(ClassCast))
      && ("x" in props && props["x"].FloatProp? && "y" !in props ==> FindSpawn(objects) == Err(NullPointer))
      && ("x" in props && props["x"].FloatProp? && "y" in props && !props["y"].FloatProp? ==> FindSpawn(objects) == Err(ClassCast))
  {
    if i > 0 {
      assert !HasSpawn(objects, 0);
      forall j | 0 <= j < i - 1 ensures !HasSpawn(objects[1..], j) {
        assert !HasSpawn(objects, j + 1);
      }
      FindSpawnUnboxing(objects[1..], i - 1);
    }
  }

  // ---------------------------------------------------------------------------
  // MapManager

  class MapManager {
    /** Maps loaded so far, by path. */
    var loadedMaps: map<string, TiledMap>
    /** None until the first load (null in the game). */
    var currentMap: Option<TiledMap>
    var mapProperties: map<string, Prop>
    var backgroundLayers: seq<int>
    var foregroundLayers: seq<int>
    var collisionLayer: int
    var interactLayer: int
    /** The map's "viewportScalar" property; None stands for null. */
    var viewportScalar: Option<real>

    constructor ()
      ensures loadedMaps == map[] && currentMap == None && viewportScalar == None
    {
      loadedMaps := map[];
      currentMap := None;
      mapProperties := map[];
      backgroundLayers, foregroundLayers := [], [];
      collisionLayer, interactLayer := 0, 0;
      viewportScalar := None;
    }

    /** getLayers: both layer lists, then the collision and interaction
        layers as ints; any failure becomes "Error loading layers", after the
        fields read before it have been assigned. */
    method GetLayers() returns (r: Result<(), Failure>)
      modifies this`backgroundLayers, this`foregroundLayers, this`collisionLayer, this`interactLayer
      ensures r.Ok? <==> LayersOk(mapProperties)
      ensures r.Err? ==> r.error == RuntimeError("Error loading layers")
      ensures r.Ok? ==>
        && backgroundLayers == LayerArray(mapProperties, "backgroundLayers").value
        && foregroundLayers == LayerArray(mapProperties, "foregroundLayers").value
        && collisionLayer == mapProperties["collisionLayer"].number
        && interactLayer == mapProperties["interactLayer"].number
    {
      var background := LayerArrayFromProperties(mapProperties, "backgroundLayers");
      if background.Err? {
        return Err(RuntimeError("Error loading layers"));
      }
      backgroundLayers := background.value;
      var foreground := LayerArrayFromProperties(mapProperties, "foregroundLayers");
      if foreground.Err? {
        return Err(RuntimeError("Error loading layers"));
      }
      foregroundLayers := foreground.value;
      if !("collisionLayer" in mapProperties && mapProperties["collisionLayer"].IntProp?) {
        return Err(RuntimeError("Error loading layers"));
      }
      collisionLayer := mapProperties["collisionLayer"].number;
      if !("interactLayer" in mapProperties && mapProperties["interactLayer"].IntProp?) {
        return Err(RuntimeError("Error loading layers"));
      }
      interactLayer := mapProperties["interactLayer"].number;
      r := Ok(());
    }

    /** The four layer fields hold what the properties list. */
    predicate LayersRead(props: map<string, Prop>)
      requires LayersOk(props)
      reads this
    {
      && backgroundLayers == LayerArray(props, "backgroundLayers").value
      && foregroundLayers == LayerArray(props, "foregroundLayers").value
      && collisionLayer == props["collisionLayer"].number
      && interactLayer == props["interactLayer"].number
    }

    /** A map whose layer properties all read: both layer lists parse, and
        the collision and interaction layers are ints. */
    static predicate LayersOk(props: map<string, Prop>)
    {
      && LayerArray(props, "backgroundLayers").Ok?
      && LayerArray(props, "foregroundLayers").Ok?
      && "collisionLayer" in props && props["collisionLayer"].IntProp?
      && "interactLayer" in props && props["interactLayer"].IntProp?
    }

    /** loadMap: the map is found in the cache or read from disk and
        cached, then made current; its layers are read, its viewport scale,
        if set, must be a float, and the game's teleported() callback runs. */
    method LoadMap(path: string, disk: map<string, TiledMap>) returns (r: Result<TiledMap, Failure>)
      modifies this
      ensures r.Ok? <==> Loads(path, old(loadedMaps), disk)
      ensures var found := MapAt(path, old(loadedMaps), disk);
        && (found.None? ==> r == Err(RuntimeError("Failed to load the map")) && unchanged(this))
        && (found.Some? ==>
              && loadedMaps == old(loadedMaps)[path := found.value]
              && currentMap == found && mapProperties == found.value.properties
              && r == InstallOutcome(found.value)
              && (LayersOk(mapProperties) ==> LayersRead(mapProperties))
              && (LayersOk(mapProperties) && ViewportOk(mapProperties) ==> ScalarRead(mapProperties)))
    {
      var found := FetchMap(path, disk);
      if found.None? {
        return Err(RuntimeError("Failed to load the map"));
      }
      r := Install(found.value);
    }

    /** The first half of loadMap: a cached map is reused; otherwise the map
        is read from disk and cached; a map in neither place is None. */
    method FetchMap(path: string, disk: map<string, TiledMap>) returns (found: Option<TiledMap>)
      modifies this`loadedMaps
      ensures found == MapAt(path, old(loadedMaps), disk)
      ensures loadedMaps == if found.Some? then old(loadedMaps)[path := found.value] else old(loadedMaps)
    {
      if path in loadedMaps {
        found := Some(loadedMaps[path]);
      } else if path in disk {
        found := Some(disk[path]);
        loadedMaps := loadedMaps[path := found.value];
      } else {
        found := None;
      }
    }

    /** The second half of loadMap: the map becomes current, its layers are
        read, then its viewport scale, then the callback runs. */
    method Install(m: TiledMap) returns (r: Result<TiledMap, Failure>)
      modifies this`mapProperties, this`currentMap, this`viewportScalar
      modifies this`backgroundLayers, this`foregroundLayers, this`collisionLayer, this`interactLayer
      ensures currentMap == Some(m) && mapProperties == m.properties
      ensures r == InstallOutcome(m)
      ensures LayersOk(m.properties) ==> LayersRead(m.properties)
      ensures LayersOk(m.properties) && ViewportOk(m.properties) ==> ScalarRead(m.properties)
    {
      mapProperties := m.properties;
      currentMap := Some(m);
      var layers := GetLayers();
      if layers.Err? {
        return Err(layers.error);
      }
      if "viewportScalar" in mapProperties {
        if !mapProperties["viewportScalar"].FloatProp? {
          return Err(ClassCast);
        }
        viewportScalar := Some(mapProperties["viewportScalar"].decimal);
      } else {
        viewportScalar := None;
      }
      var callback := Teleported(m, collisionLayer, interactLayer);
      if callback.Err? {
        return Err(callback.error);
      }
      r := Ok(m);
    }

    /** The viewport scalar holds the map's scale, or None when it sets none. */
    predicate ScalarRead(props: map<string, Prop>)
      requires ViewportOk(props)
      reads this
    {
      viewportScalar == if "viewportScalar" in props then Some(props["viewportScalar"].decimal) else None
    }

    /** getCurrentMap: fails with "No map loaded yet" before the first load. */
    method GetCurrentMap() returns (r: Result<TiledMap, Failure>)
      ensures currentMap.None? <==> r == Err(RuntimeError("No map loaded yet"))
      ensures currentMap.Some? ==> r == Ok(currentMap.value)
    {
      if currentMap.None? {
        return Err(RuntimeError("No map loaded yet"));
      }
      r := Ok(currentMap.value);
    }

    /** getViewportScalar: 1 when the map sets no scale. */
    function ViewportScalar(): (s: real)
      reads this
      ensures viewportScalar.None? ==> s == 1.0
      ensures viewportScalar.Some? ==> s == viewportScalar.value
    {
      if viewportScalar.None? then 1.0 else viewportScalar.value
    }

    /** getSpawn: searches the current map's interaction layer. */
    function Spawn(): (r: Result<Point, Failure>)
      reads this
      ensures currentMap.None? ==> r == Err(NullPointer)
      ensures currentMap.Some? && !(0 <= interactLayer < |currentMap.value.layers|) ==> r == Err(IndexOutOfBounds)
      ensures currentMap.Some? && 0 <= interactLayer < |currentMap.value.layers| ==>
        r == FindSpawn(currentMap.value.layers[interactLayer])
    {
      if currentMap.None? then Err(NullPointer)
      else if !(0 <= interactLayer < |currentMap.value.layers|) then Err(IndexOutOfBounds)
      else FindSpawn(currentMap.value.layers[interactLayer])
    }
  }
}
