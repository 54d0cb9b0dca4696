/**
  The part of Node's `fs` module the scaffolding tool uses, over an
  abstract tree: a map from path to file text, a set of directories, and
  the registry list of `servers.json` kept as a list rather than as JSON.
  Paths are lists of segments relative to the folder the services live in
  (`path.join(a, b)` is `a + [b]`); that folder always exists.
*/
module FileSystem {
  import opened Wrappers

  type Path = seq<string>

  /** The exceptions the `fs` calls and `makeFolder` raise. */
  datatype FsError =
    | AlreadyExists(path: Path)     // `makeFolder`'s own check
    | NoSuchDirectory(path: Path)   // ENOENT: the parent directory is missing
    | NoSuchFile(path: Path)        // ENOENT on a read
    | IsDirectory(path: Path)       // EISDIR
    | RegistryUnreadable            // `import()` of `servers.json` fails

  datatype World = World(files: map<Path, string>, dirs: set<Path>, registry: Option<seq<string>>)

  /** `fs.existsSync`: a file or a directory is there. */
  predicate Exists(w: World, p: Path)
  {
    p in w.files || p in w.dirs
  }

  /** The directory a new entry at `p` would go into exists; the top folder always does. */
  predicate ParentIsDir(w: World, p: Path)
  {
    |p| > 0 && (|p| == 1 || p[..|p| - 1] in w.dirs)
  }

  /** Two worlds agree on the file at `p`: both lack it, or both hold the same text. */
  predicate SameAt(w: World, w': World, p: Path)
  {
    && (p in w.files <==> p in w'.files)
    && (p in w.files ==> w.files[p] == w'.files[p])
  }

  /** Nothing is removed or overwritten away: every directory and every file path stays. */
  predicate Grows(w: World, w': World)
  {
    w.dirs <= w'.dirs && w.files.Keys <= w'.files.Keys
  }

  /**
    `makeFolder`: refuse a path that exists, else `fs.mkdirSync`, which
    fails when the parent directory is missing.
  */
  function MakeFolder(w: World, p: Path): (r: Result<World, FsError>)
    ensures r == Err(AlreadyExists(p)) <==> Exists(w, p)
    ensures r.Ok? <==> !Exists(w, p) && ParentIsDir(w, p)
    ensures r.Ok? ==> p in r.value.dirs && Grows(w, r.value) && r.value.files == w.files && r.value.registry == w.registry
  {
    if Exists(w, p) then Err(AlreadyExists(p))
    else if !ParentIsDir(w, p) then Err(NoSuchDirectory(p))
    else Ok(w.(dirs := w.dirs + {p}))
  }

  /** `fs.readFileSync`. */
  function ReadFile(w: World, p: Path): (r: Result<string, FsError>)
    ensures r.Ok? <==> p in w.files
    ensures r.Ok? ==> r.value == w.files[p]
    ensures r.Err? ==> r.error == NoSuchFile(p) || (r.error == IsDirectory(p) && p in w.dirs)
  {
    if p in w.files then Ok(w.files[p])
    else if p in w.dirs then Err(IsDirectory(p))
    else Err(NoSuchFile(p))
  }

  /** `fs.writeFileSync`: creates or truncates the file. */
  function WriteFile(w: World, p: Path, text: string): (r: Result<World, FsError>)
    ensures r.Ok? <==> p !in w.dirs && ParentIsDir(w, p)
    ensures r.Ok? ==> Grows(w, r.value) && r.value.dirs == w.dirs && r.value.registry == w.registry
  {
    if p in w.dirs then Err(IsDirectory(p))
    else if !ParentIsDir(w, p) then Err(NoSuchDirectory(p))
    else Ok(w.(files := w.files[p := text]))
  }

  /** `fs.appendFileSync`: like a write of the old text (empty when there is none) followed by `text`. */
  function AppendFile(w: World, p: Path, text: string): (r: Result<World, FsError>)
    ensures r.Ok? <==> p !in w.dirs && ParentIsDir(w, p)
    ensures r.Ok? ==> Grows(w, r.value) && r.value.dirs == w.dirs && r.value.registry == w.registry
  {
    var before := if p in w.files then w.files[p] else "";
    WriteFile(w, p, before + text)
  }

  /**
    `addServer`: load the registry, push the name, write it back. There is
    no check for a name already listed.
  */
  function AddServer(w: World, name: string): (r: Result<World, FsError>)
    ensures r.Ok? <==> w.registry.Some?
    ensures r.Ok? ==> r.value.files == w.files && r.value.dirs == w.dirs
    ensures r.Ok? ==> r.value.registry.Some?
    ensures r.Ok? ==>
              var before, after := w.registry.value, r.value.registry.value;
              |after| == |before| + 1 && after[..|before|] == before && after[|before|] == name
  {
    match w.registry
    case None => Err(RegistryUnreadable)
    case Some(list) =>
      var list' := list + [name];
      assert list'[..|list|] == list;
      Ok(w.(registry := Some(list')))
  }

  // ---------------------------------------------------------------------
  // Reading back what was done
  // ---------------------------------------------------------------------

  /** A second `makeFolder` of the same path is refused: the guard sees the first one. */
  lemma MakeFolderTwice(w: World, p: Path)
    requires MakeFolder(w, p).Ok?
    ensures MakeFolder(MakeFolder(w, p).value, p) == Err(AlreadyExists(p))
  {
  }

  /** A write is read back, and every other path reads as before. */
  lemma ReadAfterWrite(w: World, p: Path, text: string, q: Path)
    requires WriteFile(w, p, text).Ok?
    ensures ReadFile(WriteFile(w, p, text).value, p) == Ok(text)
    ensures q != p ==> ReadFile(WriteFile(w, p, text).value, q) == ReadFile(w, q)
  {
  }

  /** An append keeps the old text as a prefix and reads back as old text plus `text`. */
  lemma ReadAfterAppend(w: World, p: Path, text: string)
    requires AppendFile(w, p, text).Ok?
    ensures var w' := AppendFile(w, p, text).value;
            && p in w'.files
            && (p in w.files ==> w'.files[p] == w.files[p] + text)
            && (p !in w.files ==> w'.files[p] == text)
  {
  }

  /**
    Registering a name that is already listed lists it once more: the
    count of every name goes up by one for the added name and stays for
    the others.
  */
  lemma AddServerCounts(w: World, name: string, other: string)
    requires AddServer(w, name).Ok?
    ensures multiset(AddServer(w, name).value.registry.value)[name] == multiset(w.registry.value)[name] + 1
    ensures other != name ==>
      multiset(AddServer(w, name).value.registry.value)[other] == multiset(w.registry.value)[other]
  {
    var before := w.registry.value;
    assert AddServer(w, name).value.registry.value == before + [name];
  }
}
