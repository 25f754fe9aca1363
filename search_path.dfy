/** The module search path set at session start: `package.path` is
    extended, in front, with a `?.lua` and a `lexers/?.lua` entry for each
    of the user's and the system's vis directories. */
module SearchPath {
  import opened Native

  /** What `vis_lua_start` reads from the process: the variables
      VIS_PATH, HOME and XDG_CONFIG_HOME (None when unset) and the home
      directory of the password-database entry of the current user (None
      when there is no entry). */
  datatype Environment = Environment(
    visPath: Option<string>,
    home: Option<string>,
    passwdDir: Option<string>,
    xdgConfigHome: Option<string>)

  /** The home directory used: HOME, unless it is unset or empty, in which
      case the password database's directory if there is an entry. */
  function Home(env: Environment): (r: Option<string>)
    ensures env.home.Some? && env.home.value != "" ==> r == env.home
    ensures (env.home.None? || env.home.value == "") && env.passwdDir.Some? ==> r == env.passwdDir
    ensures (env.home.None? || env.home.value == "") && env.passwdDir.None? ==> r == env.home
  {
    if env.home.Some? && env.home.value != "" then env.home
    else if env.passwdDir.Some? then env.passwdDir
    else env.home
  }

  /** The piece pushed for VIS_PATH, if it is set. */
  function VisEntries(env: Environment): (r: string)
    ensures r == "" <==> env.visPath.None?
    ensures r == "" || r[|r| - 1] == ';'
  {
    if env.visPath.Some? then
      env.visPath.value + "/?.lua;" + env.visPath.value + "/lexers/?.lua;"
    else ""
  }

  /** The piece pushed for the user's configuration directory: from
      XDG_CONFIG_HOME whenever it is set, else from a known, non-empty
      home directory, else none. */
  function ConfigEntries(env: Environment): (r: string)
    ensures r == "" <==> ConfigDir(env) == []
    ensures r == "" || r[|r| - 1] == ';'
  {
    var home := Home(env);
    if env.xdgConfigHome.Some? then
      env.xdgConfigHome.value + "/vis/?.lua;" + env.xdgConfigHome.value + "/vis/lexers/?.lua;"
    else if home.Some? && home.value != "" then
      home.value + "/.config/vis/?.lua;" + home.value + "/.config/vis/lexers/?.lua;"
    else ""
  }

  /** The two pieces pushed for the system directories. */
  const SystemEntries: string :=
    "/usr/local/share/vis/?.lua;/usr/local/share/vis/lexers/?.lua;"
    + "/usr/share/vis/?.lua;/usr/share/vis/lexers/?.lua;"

  /** The new `package.path`: the pieces above, in the order the code
      pushes them, then the old value; `lua_concat` joins them. */
  function PackagePath(env: Environment, oldPath: string): (r: string)
    ensures |VisEntries(env)| + |SystemEntries| + |oldPath| <= |r|
    ensures r[..|VisEntries(env)|] == VisEntries(env)
    ensures r[|r| - |oldPath|..] == oldPath
  {
    VisEntries(env) + ConfigEntries(env) + SystemEntries + oldPath
  }

  /** The count of values `lua_concat` joins: the three fixed ones (the two
      system pieces and the old path) plus one per optional piece. */
  function PathsCount(env: Environment): (r: nat)
    ensures 3 <= r <= 5
    ensures r == 3 + (if VisEntries(env) == "" then 0 else 1) + (if ConfigEntries(env) == "" then 0 else 1)
  {
    var home := Home(env);
    3 + (if env.visPath.Some? then 1 else 0)
      + (if env.xdgConfigHome.Some? || (home.Some? && home.value != "") then 1 else 0)
  }

  /** The user's configuration directory: $XDG_CONFIG_HOME/vis whenever
      XDG_CONFIG_HOME is set (even to the empty string), else
      $HOME/.config/vis when the home directory is known and non-empty. */
  function ConfigDir(env: Environment): (r: seq<string>)
    ensures |r| <= 1
    ensures env.xdgConfigHome.Some? ==> r == [env.xdgConfigHome.value + "/vis"]
    ensures env.xdgConfigHome.None? ==> (r != [] <==> Home(env).Some? && Home(env).value != "")
    ensures env.xdgConfigHome.None? && r != [] ==> r == [Home(env).value + "/.config/vis"]
  {
    var home := Home(env);
    if env.xdgConfigHome.Some? then [env.xdgConfigHome.value + "/vis"]
    else if home.Some? && home.value != "" then [home.value + "/.config/vis"]
    else []
  }

  /** VIS_PATH, when it is set. */
  function VisDir(env: Environment): seq<string> {
    if env.visPath.Some? then [env.visPath.value] else []
  }

  const SystemDirs: seq<string> := ["/usr/local/share/vis", "/usr/share/vis"]

  /** The vis directories searched, highest priority first. */
  function SearchDirs(env: Environment): (dirs: seq<string>)
    ensures 2 <= |dirs| <= 4
    ensures dirs[|dirs| - 2..] == ["/usr/local/share/vis", "/usr/share/vis"]
    ensures env.visPath.Some? ==> dirs[0] == env.visPath.value
    ensures |dirs| == (if env.visPath.Some? then 1 else 0) + |ConfigDir(env)| + 2
    ensures dirs[if env.visPath.Some? then 1 else 0..|dirs| - 2] == ConfigDir(env)
  {
    VisDir(env) + ConfigDir(env) + SystemDirs
  }

  /** The two search-path entries of directory `dir`. */
  function Entries(dir: string): string {
    dir + "/?.lua;" + dir + "/lexers/?.lua;"
  }

  /** The concatenation of `piece(d)` over the directories `dirs`. */
  function JoinWith(piece: string -> string, dirs: seq<string>): string
    decreases |dirs|
  {
    if dirs == [] then "" else piece(dirs[0]) + JoinWith(piece, dirs[1..])
  }

  /** The search-path entries of `dirs`, in order. */
  function Join(dirs: seq<string>): string {
    JoinWith(Entries, dirs)
  }

  lemma {:induction false} JoinWithAppend(piece: string -> string, a: seq<string>, b: seq<string>)
    ensures JoinWith(piece, a + b) == JoinWith(piece, a) + JoinWith(piece, b)
    decreases |a|
  {
    if a == [] {
      assert a + b == b;
    } else {
      JoinWithAppend(piece, a[1..], b);
      assert (a + b)[1..] == a[1..] + b;
      calc {
        JoinWith(piece, a + b);
        piece(a[0]) + JoinWith(piece, a[1..] + b);
        piece(a[0]) + (JoinWith(piece, a[1..]) + JoinWith(piece, b));
        (piece(a[0]) + JoinWith(piece, a[1..])) + JoinWith(piece, b);
        JoinWith(piece, a) + JoinWith(piece, b);
      }
    }
  }

  lemma JoinAppend(a: seq<string>, b: seq<string>)
    ensures Join(a + b) == Join(a) + Join(b)
  {
    JoinWithAppend(Entries, a, b);
  }

  /** The entries of one directory followed by nothing more. */
  lemma JoinSingle(dir: string)
    ensures Join([dir]) == Entries(dir)
  {
    assert [dir][1..] == [];
    assert JoinWith(Entries, [dir]) == Entries(dir) + JoinWith(Entries, []);
    assert Entries(dir) + "" == Entries(dir);
  }

  /** The piece the code pushes for XDG_CONFIG_HOME is the entries of
      its `vis` subdirectory. */
  lemma XdgEntries(x: string)
    ensures Entries(x + "/vis") == x + "/vis/?.lua;" + x + "/vis/lexers/?.lua;"
  {
    assert "/vis" + "/?.lua;" == "/vis/?.lua;";
    assert x + "/vis" + "/?.lua;" == x + "/vis/?.lua;";
    assert "/vis" + "/lexers/?.lua;" == "/vis/lexers/?.lua;";
    assert x + "/vis" + "/lexers/?.lua;" == x + "/vis/lexers/?.lua;";
  }

  /** The piece the code pushes for the home directory is the entries of
      its `.config/vis` subdirectory. */
  lemma HomeEntries(h: string)
    ensures Entries(h + "/.config/vis") == h + "/.config/vis/?.lua;" + h + "/.config/vis/lexers/?.lua;"
  {
    assert "/.config/vis" + "/?.lua;" == "/.config/vis/?.lua;";
    assert h + "/.config/vis" + "/?.lua;" == h + "/.config/vis/?.lua;";
    assert "/.config/vis" + "/lexers/?.lua;" == "/.config/vis/lexers/?.lua;";
    assert h + "/.config/vis" + "/lexers/?.lua;" == h + "/.config/vis/lexers/?.lua;";
  }

  /** The user's configuration piece of `PackagePath` is the entries of
      `ConfigDir`. */
  lemma ConfigPiece(env: Environment)
    ensures Join(ConfigDir(env)) == ConfigEntries(env)
  {
    var home := Home(env);
    if env.xdgConfigHome.Some? {
      JoinSingle(env.xdgConfigHome.value + "/vis");
      XdgEntries(env.xdgConfigHome.value);
    } else if home.Some? && home.value != "" {
      JoinSingle(home.value + "/.config/vis");
      HomeEntries(home.value);
    }
  }

  /** The literal pieces the code pushes for the system directories are
      their entries.  This lemma and the six below it are solver aids, not
      properties of the model: each equality of string literals is its own
      lemma, which keeps every proof small. */
  lemma LocalShareEntries()
    ensures Entries("/usr/local/share/vis") == "/usr/local/share/vis/?.lua;/usr/local/share/vis/lexers/?.lua;"
  {
    LocalShareLua();
    LocalShareLexers();
    LocalShareBoth();
  }

  lemma LocalShareLua()
    ensures "/usr/local/share/vis" + "/?.lua;" == "/usr/local/share/vis/?.lua;"
  {
  }

  lemma LocalShareLexers()
    ensures "/usr/local/share/vis" + "/lexers/?.lua;" == "/usr/local/share/vis/lexers/?.lua;"
  {
  }

  lemma LocalShareBoth()
    ensures "/usr/local/share/vis/?.lua;" + "/usr/local/share/vis/lexers/?.lua;"
         == "/usr/local/share/vis/?.lua;/usr/local/share/vis/lexers/?.lua;"
  {
  }

  lemma ShareEntries()
    ensures Entries("/usr/share/vis") == "/usr/share/vis/?.lua;/usr/share/vis/lexers/?.lua;"
  {
    ShareLua();
    ShareLexers();
    ShareBoth();
  }

  lemma ShareLua()
    ensures "/usr/share/vis" + "/?.lua;" == "/usr/share/vis/?.lua;"
  {
  }

  lemma ShareLexers()
    ensures "/usr/share/vis" + "/lexers/?.lua;" == "/usr/share/vis/lexers/?.lua;"
  {
  }

  lemma ShareBoth()
    ensures "/usr/share/vis/?.lua;" + "/usr/share/vis/lexers/?.lua;"
         == "/usr/share/vis/?.lua;/usr/share/vis/lexers/?.lua;"
  {
  }

  /** The two system directories' piece of `PackagePath`. */
  lemma SystemPiece()
    ensures Join(SystemDirs) == SystemEntries
  {
    var local, usr := "/usr/local/share/vis", "/usr/share/vis";
    JoinAppend([local], [usr]);
    assert [local] + [usr] == SystemDirs;
    JoinSingle(local);
    JoinSingle(usr);
    LocalShareEntries();
    ShareEntries();
  }

  /** The VIS_PATH piece of `PackagePath`. */
  lemma VisPiece(env: Environment)
    ensures Join(VisDir(env)) == VisEntries(env)
  {
    if env.visPath.Some? {
      JoinSingle(env.visPath.value);
    }
  }

  /** The new `package.path` is the entries of the search directories, in
      priority order, followed by the old path; and `lua_concat` joins
      exactly one value per directory plus the old path. */
  lemma PackagePathOrder(env: Environment, oldPath: string)
    ensures PackagePath(env, oldPath) == Join(SearchDirs(env)) + oldPath
    ensures PathsCount(env) == |SearchDirs(env)| + 1
  {
    var v, c := VisDir(env), ConfigDir(env);
    calc {
      Join(SearchDirs(env)) + oldPath;
      Join(v + c + SystemDirs) + oldPath;
      { JoinAppend(v + c, SystemDirs); }
      Join(v + c) + Join(SystemDirs) + oldPath;
      { JoinAppend(v, c); }
      Join(v) + Join(c) + Join(SystemDirs) + oldPath;
      { VisPiece(env); ConfigPiece(env); SystemPiece(); }
      VisEntries(env) + ConfigEntries(env) + SystemEntries + oldPath;
    }
  }
}
