/** What the resolver reads from its surroundings, as values: the parsed JSON
    of a `package.json` (as `serde_json::Value`) and a snapshot of the file
    system that `is_file`, `is_dir`, `File::open` with `serde_json::from_reader`
    and `canonicalize` consult. */
module Host {
  import opened Wrappers
  import opened Paths

  /** A parsed JSON value. An object keeps its entries in the order the JSON
      library iterates them. */
  datatype Json =
    | JNull
    | JBool(b: bool)
    | JNumber(n: int)
    | JString(str: string)
    | JArray(items: seq<Json>)
    | JObject(entries: seq<(string, Json)>)
  {
    /** `value[key]` of `serde_json`: the entry's value on an object that has
        the key, `null` otherwise (also on every value that is not an
        object). */
    function Get(key: string): Json {
      if JObject? then
        match Lookup(entries, key)
        case Some(i) => entries[i].1
        case None => JNull
      else JNull
    }
  }

  /** The index of the first entry whose key is `key`. */
  function Lookup(entries: seq<(string, Json)>, key: string): (r: Option<nat>)
    ensures r.None? <==> forall i :: 0 <= i < |entries| ==> entries[i].0 != key
    ensures r.Some? ==> r.value < |entries| && entries[r.value].0 == key
                        && forall j :: 0 <= j < r.value ==> entries[j].0 != key
  {
    if entries == [] then None
    else if entries[0].0 == key then Some(0)
    else
      match Lookup(entries[1..], key)
      case None => None
      case Some(i) => Some(i + 1)
  }

  /** The file system as the resolver sees it. `json` holds the parse of each
      file that parses as JSON (a file that is absent from it fails to parse);
      `canonical` holds the result of `canonicalize` for each path it
      succeeds on; `coreModules` holds the names Node.js ships as built-ins. */
  datatype FileSystem = FileSystem(
    files: set<Path>,
    dirs: set<Path>,
    json: map<Path, Json>,
    canonical: map<Path, Path>,
    coreModules: set<string>)
}
