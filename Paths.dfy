/** Where the application finds its icon and its database (`AppPaths`).
    The interpreter's `sys._MEIPASS`, the resolved script directory and the
    writable app-data location are inputs; the directories `get_db_path`
    creates are returned as a record of `os.makedirs` calls. */
module Paths {
  import opened Util

  predicate EndsWith(s: string, suffix: string) {
    |suffix| <= |s| && s[|s| - |suffix|..] == suffix
  }

  /** A component that `os.path.join` appends after a separator rather
      than restarting the path from: non-empty and not absolute. */
  predicate Relative(c: string) {
    c != [] && c[0] != '/'
  }

  /** `posixpath.join(path, b)`: an absolute `b` replaces the path; otherwise
      `b` is appended, after a `/` unless the path is empty or already ends
      with one. */
  function JoinTwo(path: string, b: string): string {
    if b != [] && b[0] == '/' then b
    else if path == [] || path[|path| - 1] == '/' then path + b
    else path + "/" + b
  }

  /** What one join gives, case by case: one separator between a plain
      path and a relative component, none after a path that is empty or
      ends with one; the result keeps the path as prefix and the component
      as suffix; an absolute component replaces the path. */
  lemma JoinTwoCases(path: string, b: string)
    ensures var r := JoinTwo(path, b);
      (Relative(b) && path != [] && path[|path| - 1] != '/' ==> r == path + "/" + b)
      && (Relative(b) && (path == [] || path[|path| - 1] == '/') ==> r == path + b)
      && (Relative(b) ==> StartsWith(r, path) && EndsWith(r, b))
      && (!Relative(b) && b != [] ==> r == b)
      && (Segment(b) ==> PlainDir(r))
  {
    var r := JoinTwo(path, b);
    if Relative(b) {
      assert r[..|path|] == path;
      assert r[|r| - |b|..] == b;
    }
  }

  /** `os.path.join(parts[0], parts[1], ...)`, folded left to right. */
  function Join(parts: seq<string>): (r: string)
    requires parts != []
    ensures EndsWith(r, parts[|parts| - 1])
  {
    if |parts| == 1 then parts[0]
    else
      var init, last := Join(parts[..|parts| - 1]), parts[|parts| - 1];
      JoinTwoCases(init, last);
      JoinTwo(init, last)
  }

  /** A base path the joins extend with a `/` each time. */
  predicate PlainDir(base: string) {
    base != [] && base[|base| - 1] != '/'
  }

  /** A relative component that does not end with a separator either. */
  predicate Segment(c: string) {
    Relative(c) && PlainDir(c)
  }

  /** Joining relative components onto a plain directory separates each by
      exactly one `/`. */
  lemma {:induction false} JoinPlain(base: string, comps: seq<string>)
    requires PlainDir(base)
    requires forall i | 0 <= i < |comps| :: Segment(comps[i])
    ensures Join([base] + comps) == base + Slashed(comps)
    ensures PlainDir(Join([base] + comps))
    decreases |comps|
  {
    if comps == [] {
      assert [base] + comps == [base];
    } else {
      var init := comps[..|comps| - 1];
      var parts := [base] + comps;
      assert parts[..|parts| - 1] == [base] + init;
      JoinPlain(base, init);
      var last := comps[|comps| - 1];
      SlashedSnoc(init, last);
      assert comps == init + [last];
      assert Join(parts) == JoinTwo(Join([base] + init), last);
    }
  }

  /** `/c1/c2/...`: the components, each after one separator. */
  function Slashed(comps: seq<string>): string {
    if comps == [] then [] else Slashed(comps[..|comps| - 1]) + "/" + comps[|comps| - 1]
  }

  lemma SlashedSnoc(comps: seq<string>, c: string)
    ensures Slashed(comps + [c]) == Slashed(comps) + "/" + c
  {
    assert (comps + [c])[..|comps|] == comps;
  }

  // ---------------------------------------------------------------------
  // The paths object

  const IconFilename: string := "JPI.ico"
  const DbFilename: string := "ping_log.db"

  datatype AppPaths = AppPaths(devMode: bool, basePath: string, iconFilename: string, dbFilename: string)

  /** `_get_base_path`: the bundle's extraction folder when the interpreter
      has `_MEIPASS`, else the project root found from the script's own
      location (`scriptRoot`, already made absolute). */
  function BasePath(meipass: Option<string>, scriptRoot: string): (base: string)
    ensures meipass.Some? ==> base == meipass.value
    ensures meipass.None? ==> base == scriptRoot
  {
    match meipass
    case Some(bundle) => bundle
    case None => scriptRoot
  }

  /** `AppPaths()`. */
  function NewAppPaths(meipass: Option<string>, scriptRoot: string): (p: AppPaths)
    ensures p.devMode <==> meipass.None?
    ensures p.basePath == BasePath(meipass, scriptRoot)
    ensures p.iconFilename == "JPI.ico" && p.dbFilename == "ping_log.db"
  {
    AppPaths(meipass.None?, BasePath(meipass, scriptRoot), IconFilename, DbFilename)
  }

  /** `get_icon_path`: under `data/img` of the project in development, at
      the top of the bundle otherwise. The joins are written pairwise;
      `IconPathIsJoin` shows they are the one `os.path.join` call. */
  function IconPath(p: AppPaths): string {
    if p.devMode then JoinTwo(JoinTwo(JoinTwo(p.basePath, "data"), "img"), p.iconFilename)
    else JoinTwo(p.basePath, p.iconFilename)
  }

  /** One `os.makedirs(path, exist_ok=...)` call. */
  datatype MakeDirs = MakeDirs(path: string, existOk: bool)

  /** What `get_db_path` returns and the side effects it has on the way:
      the app-data lookup and the directories it creates, in order. */
  datatype DbLocation = DbLocation(path: string, queriedAppData: bool, created: seq<MakeDirs>)

  /** `get_db_path`, given what `QStandardPaths.writableLocation` would
      return; `DbPathIsJoin` relates the pairwise joins to the calls. */
  function DbPath(p: AppPaths, appData: string): DbLocation {
    if p.devMode then DbLocation(JoinTwo(JoinTwo(JoinTwo(p.basePath, "data"), "db"), p.dbFilename), false, [])
    else
      var dataFolder := JoinTwo(appData, "data");
      DbLocation(JoinTwo(dataFolder, p.dbFilename), true, [MakeDirs(appData, true), MakeDirs(dataFolder, true)])
  }

  // ---------------------------------------------------------------------
  // Properties

  lemma JoinPair(a: string, b: string)
    ensures Join([a, b]) == JoinTwo(a, b)
  {
    assert [a, b][..1] == [a];
  }

  lemma JoinSnoc(parts: seq<string>, b: string)
    requires parts != []
    ensures Join(parts + [b]) == JoinTwo(Join(parts), b)
  {
    assert (parts + [b])[..|parts|] == parts;
  }

  lemma JoinQuad(a: string, b: string, c: string, d: string)
    ensures Join([a, b, c, d]) == JoinTwo(JoinTwo(JoinTwo(a, b), c), d)
  {
    JoinPair(a, b);
    JoinSnoc([a, b], c);
    assert [a, b] + [c] == [a, b, c];
    JoinSnoc([a, b, c], d);
    assert [a, b, c] + [d] == [a, b, c, d];
  }

  /** `get_icon_path` is the single `os.path.join` call of each mode. */
  lemma IconPathIsJoin(p: AppPaths)
    ensures IconPath(p) == if p.devMode then Join([p.basePath, "data", "img", p.iconFilename])
      else Join([p.basePath, p.iconFilename])
  {
    JoinQuad(p.basePath, "data", "img", p.iconFilename);
    JoinPair(p.basePath, p.iconFilename);
  }

  /** `get_db_path` is the `os.path.join` calls of each mode. */
  lemma DbPathIsJoin(p: AppPaths, appData: string)
    ensures p.devMode ==> DbPath(p, appData).path == Join([p.basePath, "data", "db", p.dbFilename])
    ensures !p.devMode ==>
      DbPath(p, appData).created[1].path == Join([appData, "data"])
      && DbPath(p, appData).path == Join([Join([appData, "data"]), p.dbFilename])
  {
    JoinQuad(p.basePath, "data", "db", p.dbFilename);
    JoinPair(appData, "data");
    JoinPair(JoinTwo(appData, "data"), p.dbFilename);
  }

  /** Whatever the base, the icon path names the icon file. */
  lemma IconPathNamesIcon(p: AppPaths)
    ensures EndsWith(IconPath(p), p.iconFilename)
  {
    IconPathIsJoin(p);
  }

  /** Whatever the mode, the database path names the database file; the
      app-data location is looked up, and two directories are created,
      exactly when bundled. */
  lemma DbPathShape(p: AppPaths, appData: string)
    ensures EndsWith(DbPath(p, appData).path, p.dbFilename)
    ensures DbPath(p, appData).queriedAppData <==> !p.devMode
    ensures |DbPath(p, appData).created| == if p.devMode then 0 else 2
  {
    DbPathIsJoin(p, appData);
  }

  /** The icon path for a plain base directory, in both modes. */
  lemma IconPathLayout(meipass: Option<string>, scriptRoot: string)
    requires PlainDir(BasePath(meipass, scriptRoot))
    ensures var p := NewAppPaths(meipass, scriptRoot);
      IconPath(p) == if meipass.None? then p.basePath + "/" + "data" + "/" + "img" + "/" + "JPI.ico"
        else p.basePath + "/" + "JPI.ico"
  {
    var p := NewAppPaths(meipass, scriptRoot);
    assert Segment("data") && Segment("img");
  }

  /** In development the database sits under `data/db` of the project; no
      directory is created and the app-data location is not looked up, so
      the path does not depend on it. */
  lemma DevDbPath(p: AppPaths, appData: string, otherAppData: string)
    requires p.devMode && PlainDir(p.basePath) && p.dbFilename == DbFilename
    ensures DbPath(p, appData).path == p.basePath + "/" + "data" + "/" + "db" + "/" + "ping_log.db"
    ensures !DbPath(p, appData).queriedAppData && DbPath(p, appData).created == []
    ensures DbPath(p, appData) == DbPath(p, otherAppData)
  {
    assert Segment("data") && Segment("db");
  }

  /** When bundled, the app-data folder and its `data` folder are both
      created (with `exist_ok`) before the path inside the second is
      returned: the database's parent directory is the last one created,
      and that one lies inside the first. */
  lemma BundledDbPath(p: AppPaths, appData: string)
    requires !p.devMode && p.dbFilename == DbFilename
    ensures var loc := DbPath(p, appData);
      loc.queriedAppData
      && |loc.created| == 2 && loc.created[0] == MakeDirs(appData, true) && loc.created[1].existOk
      && StartsWith(loc.created[1].path, appData) && EndsWith(loc.created[1].path, "data")
      && loc.path == loc.created[1].path + "/" + "ping_log.db"
  {
    var dataFolder := JoinTwo(appData, "data");
    assert dataFolder[|dataFolder| - 1] == 'a' by {
      assert dataFolder[|dataFolder| - 4..][3] == dataFolder[|dataFolder| - 1];
    }
  }

  /** With a plain app-data folder the database is `appdata/data/ping_log.db`
      (the unit tests' expectation). */
  lemma BundledDbPathPlain(p: AppPaths, appData: string)
    requires !p.devMode && p.dbFilename == DbFilename && PlainDir(appData)
    ensures DbPath(p, appData).path == appData + "/" + "data" + "/" + "ping_log.db"
    ensures DbPath(p, appData).created == [MakeDirs(appData, true), MakeDirs(appData + "/" + "data", true)]
  {
    BundledDbPath(p, appData);
  }
}
