/**
 * Resolving the files a material loads (`PathResolver.MaterialState`):
 * textures and shader packages requested while a material loads use the
 * material's collection, and a material loaded for a non-default collection
 * is requested under a path tagged with that collection's name and change
 * counter, from which the load handler recovers the collection's name.
 */
module MaterialResolver {
  import opened Common

  datatype ResourceType = Mtrl | Tex | Shpk | OtherResource(code: int)

  /** A collection as the resolver refers to it: its name and its change counter. */
  datatype CollectionRef = CollectionRef(name: string, changeCounter: int)

  /** A draw object (a pointer, 0 for none) with the collection its files resolve in (null for none). */
  datatype ResolveData = ResolveData(drawObject: int, collection: Option<CollectionRef>)

  const NoData := ResolveData(0, None)

  /** What `HandleCollection` produces: the draw object, the path to load (none when nothing was resolved) and the collection. */
  datatype LoadData = LoadData(drawObject: int, path: Option<string>, collection: ResolveData)

  /** The path a material is requested under for a non-default collection. */
  function MaterialTag(name: string, changeCounter: int, path: string): (r: string)
    ensures |r| > |name| && r[0] == '|' && r[1..|name| + 1] == name
    ensures EndsWith(r, "|" + path)
  {
    "|" + name + "_" + IntToString(changeCounter) + "|" + path
  }

  /**
   * `HandleCollection`: a material for a non-default collection is loaded
   * under the tagged path; everything else keeps the resolved path.  The
   * source dereferences the collection without a check in the tagged case.
   */
  function HandleCollection(collection: ResolveData, path: string, nonDefault: bool, kind: ResourceType,
                            resolved: Option<string>): (r: LoadData)
    requires nonDefault && kind == Mtrl ==> collection.collection.Some?
    ensures r.drawObject == collection.drawObject && r.collection == collection
    ensures nonDefault && kind == Mtrl ==>
      r.path.Some? && |r.path.value| > 0 && r.path.value[0] == '|' && EndsWith(r.path.value, "|" + path)
    ensures !(nonDefault && kind == Mtrl) ==> r.path == resolved
  {
    if nonDefault && kind == Mtrl then
      LoadData(collection.drawObject,
               Some(MaterialTag(collection.collection.value.name, collection.collection.value.changeCounter, path)),
               collection)
    else
      LoadData(collection.drawObject, resolved, collection)
  }

  /**
   * The collection name in the first part of a tagged path: everything
   * before the last '_', or all of it when there is none.
   */
  function CollectionNameOf(split: string): (r: string)
    ensures '_' !in split ==> r == split
    ensures '_' in split ==> |r| < |split| && split[..|r|] == r && split[|r|] == '_' && '_' !in split[|r| + 1..]
  {
    var lastUnderscore := LastIndexOf(split, '_');
    if lastUnderscore == -1 then split else split[..lastUnderscore]
  }

  /**
   * Round trip: the name recovered from `name_counter` is the collection's
   * name, also when the name itself contains underscores.
   */
  lemma CollectionNameRoundTrip(name: string, changeCounter: int)
    ensures CollectionNameOf(name + "_" + IntToString(changeCounter)) == name
  {
    var digits := IntToString(changeCounter);
    var split := name + "_" + digits;
    IntToStringAvoids(changeCounter, '_');
    assert split[|name|] == '_';
    assert forall k :: |name| < k < |split| ==> split[k] == digits[k - |name| - 1];
    assert LastIndexOf(split, '_') == |name|;
    assert split[..|name|] == name;
  }

  /** `LoadMtrlHelper`: the collection recorded for the material's own path, or none. */
  function LoadMtrlHelper(mtrlHandle: int, mtrlPath: string, paths: map<string, ResolveData>): (r: ResolveData)
    ensures mtrlHandle == 0 ==> r == NoData
    ensures mtrlHandle != 0 && mtrlPath !in paths ==> r == NoData
    ensures mtrlHandle != 0 && mtrlPath in paths ==> r == paths[mtrlPath]
  {
    if mtrlHandle == 0 then NoData
    else if mtrlPath in paths then paths[mtrlPath]
    else NoData
  }

  /** The material state: the collection of the material being loaded and the path-to-collection table. */
  class MaterialState {
    var mtrlCollection: ResolveData
    var paths: map<string, ResolveData>

    constructor (paths: map<string, ResolveData>)
      ensures mtrlCollection == NoData && this.paths == paths
    {
      mtrlCollection := NoData;
      this.paths := paths;
    }

    /**
     * `HandleSubFiles`: textures and shader packages loaded while a material
     * with a collection loads use that collection; otherwise nothing.
     */
    method HandleSubFiles(kind: ResourceType) returns (found: bool, collection: ResolveData)
      ensures found <==> mtrlCollection.collection.Some? && (kind == Tex || kind == Shpk)
      ensures found ==> collection == mtrlCollection
      ensures !found ==> collection == NoData
    {
      if mtrlCollection.collection.Some? && (kind == Tex || kind == Shpk) {
        return true, mtrlCollection;
      }
      return false, NoData;
    }

    /**
     * `LoadMtrlTexDetour` / `LoadMtrlShpkDetour`: the material's collection
     * is current exactly while the original function loads the material's
     * files, and is reset afterwards.  `original` is the game's function,
     * applied to the state it sees.
     */
    method LoadMtrlFiles(mtrlHandle: int, mtrlPath: string, original: ResolveData -> bv8) returns (ret: bv8)
      modifies this
      ensures ret == original(LoadMtrlHelper(mtrlHandle, mtrlPath, old(paths)))
      ensures mtrlCollection == NoData && paths == old(paths)
    {
      mtrlCollection := LoadMtrlHelper(mtrlHandle, mtrlPath, paths);
      ret := original(mtrlCollection);
      mtrlCollection := NoData;
    }

    /**
     * `MtrlLoadHandler`: nothing for anything but a material.  For a
     * material, the collection named in `split` (temporary collections
     * first) is recorded for `path` while the default loader runs, and the
     * entry is consumed afterwards.  `tempByName` / `byName` are the two
     * collection lookups, `loaded` the default loader's result and `seen`
     * what the loader finds recorded for `path`.
     */
    method MtrlLoadHandler(drawObject: int, split: string, path: string, kind: ResourceType,
                           tempByName: string -> Option<CollectionRef>, byName: string -> Option<CollectionRef>, loaded: bv8)
      returns (handled: bool, ret: bv8, seen: Option<ResolveData>)
      modifies this
      ensures kind != Mtrl ==> !handled && ret == 0 && seen == None && paths == old(paths)
      ensures kind == Mtrl ==> handled && ret == loaded && paths == old(paths) - {path}
      ensures kind == Mtrl && tempByName(CollectionNameOf(split)).Some? ==>
        seen == Some(ResolveData(drawObject, tempByName(CollectionNameOf(split))))
      ensures kind == Mtrl && tempByName(CollectionNameOf(split)).None? && byName(CollectionNameOf(split)).Some? ==>
        seen == Some(ResolveData(drawObject, byName(CollectionNameOf(split))))
      ensures kind == Mtrl && tempByName(CollectionNameOf(split)).None? && byName(CollectionNameOf(split)).None? ==>
        seen == (if path in old(paths) then Some(old(paths)[path]) else None)
      ensures mtrlCollection == old(mtrlCollection)
    {
      ret := 0;
      seen := None;
      if kind != Mtrl {
        return false, ret, seen;
      }
      var name := CollectionNameOf(split);
      var collection := tempByName(name);
      if collection.None? {
        collection := byName(name);
      }
      if collection.Some? {
        paths := paths[path := ResolveData(drawObject, collection)];
      }
      seen := if path in paths then Some(paths[path]) else None;
      ret := loaded;
      paths := paths - {path};
      handled := true;
    }
  }
}
