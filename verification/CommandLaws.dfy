/** Where a command comes from: functions, builtins, the directories of PATH, and files of FPATH (section 2.9.1.1 of POSIX.1-2017 XCU). */
module CommandLaws {
  import opened Chars
  import opened Commands

  /** A colon between any two. */
  function Colons(dirs: seq<string>): string {
    if dirs == [] then [] else if |dirs| == 1 then dirs[0] else dirs[0] + ":" + Colons(dirs[1..])
  }

  predicate NoColons(dirs: seq<string>) { forall d <- dirs :: ':' !in d }

  /** Where a file is to be in a directory; the empty one is the current one. */
  function Place(cwd: string, dir: string, name: string): string {
    if dir == [] then cwd + "/" + name
    else
      var rooted := if dir[0] == '/' then dir else cwd + "/" + dir;
      if dir[|dir| - 1] == '/' then rooted + name else rooted + "/" + name
  }

  predicate RegularAt(files: Files, place: string) { place in files && files[place].Regular? }

  predicate ExecutableAt(files: Files, place: string) { RegularAt(files, place) && files[place].executable }

  lemma PlaceTried(files: Files, cwd: string, dir: string, name: string)
    requires '/' !in name
    ensures var place := Place(cwd, dir, name);
            && HasCommand(files, cwd, dir, name) == ExecutableAt(files, place)
            && Stat(files, cwd, Within(dir, name)) == if place in files then files[place] else Missing
  {
    if dir == [] {
      assert name != [] ==> name[0] in name;
    } else {
      assert Within(dir, name)[0] == dir[0];
      if dir[|dir| - 1] == '/' {
        assert cwd + "/" + (dir + name) == cwd + "/" + dir + name;
      } else {
        assert cwd + "/" + (dir + "/" + name) == cwd + "/" + dir + "/" + name;
      }
    }
  }

  lemma {:induction false} ToColonIs(d: string, rest: string)
    requires ':' !in d && (rest == [] || rest[0] == ':')
    ensures ToColon(d + rest) == |d|
  {
    if d == [] {
      assert d + rest == rest;
    } else {
      assert (d + rest)[1..] == d[1..] + rest;
      ToColonIs(d[1..], rest);
    }
  }

  lemma {:induction false} ColonsFirst(dirs: seq<string>)
    requires NoColons(dirs) && dirs != []
    ensures var path := Colons(dirs);
            && ToColon(path) == |dirs[0]| && path[..|dirs[0]|] == dirs[0]
            && (|dirs| == 1 ==> path == dirs[0])
            && (|dirs| > 1 ==> |dirs[0]| < |path| && path[|dirs[0]| + 1..] == Colons(dirs[1..]))
  {
    hide ToColon;
    var d := dirs[0];
    assert d in dirs;
    if |dirs| == 1 {
      ToColonIs(d, []);
      assert d + [] == d;
    } else {
      var rest := Colons(dirs[1..]);
      hide Colons;
      ToColonIs(d, ":" + rest);
      assert Colons(dirs) == d + (":" + rest);
    }
  }

  /** PATH stands for the directories between its colons. */
  lemma {:induction false} ColonsEntries(dirs: seq<string>)
    requires NoColons(dirs) && dirs != []
    ensures Entries(Colons(dirs)) == dirs
    decreases |dirs|
  {
    ColonsFirst(dirs);
    if |dirs| > 1 {
      ColonsEntries(dirs[1..]);
    }
  }

  /** The first of the directories that has the command; the empty one at the end is not reached behind a missing name. */
  lemma {:induction false} SearchFinds(files: Files, cwd: string, dirs: seq<string>, name: string, index: int, k: nat)
    requires NoColons(dirs) && k < |dirs| && '/' !in name && index >= -1
    requires ExecutableAt(files, Place(cwd, dirs[k], name))
    requires forall j :: 0 <= j < k ==> !ExecutableAt(files, Place(cwd, dirs[j], name))
    requires k > 0 && k == |dirs| - 1 && dirs[k] == [] ==> Place(cwd, dirs[k - 1], name) in files
    requires forall p <- files.Keys :: !files[p].Missing?
    ensures Search(files, cwd, Colons(dirs), name, index, -1) == FoundAt(index + 1 + k)
    decreases |dirs|
  {
    hide Search, HasCommand, Place, Within, Stat, ExecutableAt, Entries, NoColons;
    SearchStep(files, cwd, Colons(dirs), name, index);
    ColonsEntries(dirs);
    ColonsFirst(dirs);
    PlaceTried(files, cwd, dirs[0], name);
    if k > 0 {
      NoColonsTail(dirs);
      SearchFinds(files, cwd, dirs[1..], name, index + 1, k - 1);
    }
  }

  lemma NoColonsTail(dirs: seq<string>)
    requires NoColons(dirs) && dirs != []
    ensures NoColons(dirs[1..])
  {
  }

  /** No directory has it. */
  lemma {:induction false} SearchMisses(files: Files, cwd: string, dirs: seq<string>, name: string, index: int)
    requires NoColons(dirs) && dirs != [] && '/' !in name && index >= -1
    requires forall d <- dirs :: !ExecutableAt(files, Place(cwd, d, name))
    ensures Search(files, cwd, Colons(dirs), name, index, -1).NotFound?
    decreases |dirs|
  {
    hide Search, HasCommand, Place, Within, Stat, ExecutableAt, Entries, NoColons;
    SearchStep(files, cwd, Colons(dirs), name, index);
    ColonsEntries(dirs);
    ColonsFirst(dirs);
    PlaceTried(files, cwd, dirs[0], name);
    assert dirs[0] in dirs;
    if |dirs| > 1 {
      NoColonsTail(dirs);
      SearchMisses(files, cwd, dirs[1..], name, index + 1);
    }
  }

  /** The first file of FPATH with the name of the function is read. */
  lemma {:induction false} FunctionFile(files: Files, cwd: string, dirs: seq<string>, name: string, index: int, k: nat)
    requires NoColons(dirs) && k < |dirs| && '/' !in name && index >= -1
    requires RegularAt(files, Place(cwd, dirs[k], name))
    requires forall j :: 0 <= j < k ==> !RegularAt(files, Place(cwd, dirs[j], name))
    requires k > 0 && k == |dirs| - 1 && dirs[k] == [] ==> Place(cwd, dirs[k - 1], name) in files
    requires forall p <- files.Keys :: !files[p].Missing?
    ensures SearchFunctions(files, cwd, Colons(dirs), name, index, -1) == Read(files[Place(cwd, dirs[k], name)].defines)
    decreases |dirs|
  {
    hide HasCommand, Place, Within, Stat, NoColons;
    ColonsFirst(dirs);
    PlaceTried(files, cwd, dirs[0], name);
    if k > 0 {
      NoColonsTail(dirs);
      FunctionFile(files, cwd, dirs[1..], name, index + 1, k - 1);
      ColonsSome(dirs[1..]);
    }
  }

  lemma ColonsSome(dirs: seq<string>)
    requires dirs != []
    ensures Colons(dirs) == [] <==> dirs == [[]]
  {
  }

  // ---------- Lookups ----------

  /** A function comes first. */
  lemma FunctionFirst(world: World, s: State, name: string, id: int)
    requires '/' !in name && name in s.table && s.table[name] == Cached(Function(id), false)
    ensures Find(world, s, name, None, false) == (Is(Function(id)), s)
  {
  }

  /** Then a builtin, which also hides functions for those that do not want them. */
  lemma BuiltinNext(world: World, s: State, name: string, noFunctions: bool)
    requires '/' !in name && name in world.builtins
    requires name !in s.table || (s.table[name].entry.Function? && noFunctions)
    ensures Find(world, s, name, None, noFunctions).0 == Is(Builtin)
  {
  }

  /** Then the first directory of PATH that has the command, and its number is remembered. */
  lemma FindsFirst(world: World, s: State, name: string, dirs: seq<string>, k: nat, noFunctions: bool)
    requires '/' !in name && name !in world.builtins && name !in s.table
    requires NoColons(dirs) && k < |dirs| && s.path == Colons(dirs) != []
    requires ExecutableAt(world.files, Place(s.cwd, dirs[k], name))
    requires forall j :: 0 <= j < k ==> !ExecutableAt(world.files, Place(s.cwd, dirs[j], name))
    requires k > 0 && k == |dirs| - 1 && dirs[k] == [] ==> Place(s.cwd, dirs[k - 1], name) in world.files
    requires forall p <- world.files.Keys :: !world.files[p].Missing?
    ensures Find(world, s, name, None, noFunctions) ==
              (Is(Normal(k)), s.(table := s.table[name := Cached(Normal(k), false)]))
  {
    hide Search, Place;
    SearchFinds(world.files, s.cwd, dirs, name, -1, k);
  }

  /** Then the function that the first file of its name in FPATH defines, which is then defined. */
  lemma FindsFunction(world: World, s: State, name: string, dirs: seq<string>, fdirs: seq<string>, k: nat, noFunctions: bool)
    requires '/' !in name && name !in world.builtins && name !in s.table
    requires NoColons(dirs) && dirs != [] && s.path == Colons(dirs)
    requires forall d <- dirs :: !ExecutableAt(world.files, Place(s.cwd, d, name))
    requires NoColons(fdirs) && k < |fdirs| && s.fpath == Colons(fdirs) != []
    requires RegularAt(world.files, Place(s.cwd, fdirs[k], name))
    requires forall j :: 0 <= j < k ==> !RegularAt(world.files, Place(s.cwd, fdirs[j], name))
    requires k > 0 && k == |fdirs| - 1 && fdirs[k] == [] ==> Place(s.cwd, fdirs[k - 1], name) in world.files
    requires forall p <- world.files.Keys :: !world.files[p].Missing?
    ensures var defines := world.files[Place(s.cwd, fdirs[k], name)].defines;
            Find(world, s, name, None, noFunctions) ==
              if defines.None? then (Failed, s)
              else (Is(Function(defines.value)), s.(table := s.table[name := Cached(Function(defines.value), false)]))
  {
    hide Search, SearchFunctions, Place, ExecutableAt, RegularAt;
    if s.path != [] {
      SearchMisses(world.files, s.cwd, dirs, name, -1);
      FoundBehind(world.files, s.cwd, s.path, name, -1);
    }
    var r := SearchPath(world.files, s.cwd, s.path, name, -1);
    FunctionFile(world.files, s.cwd, fdirs, name, r.last, k);
  }

  /** What is remembered is not searched again, whatever has become of the files. */
  lemma Remembers(world: World, later: World, s: State, name: string, noFunctions: bool)
    requires name !in s.table && Find(world, s, name, None, noFunctions).0.Is?
    requires Find(world, s, name, None, noFunctions).0.entry.Function? ==> !noFunctions
    ensures var (a, t) := Find(world, s, name, None, noFunctions);
            Find(later, t, name, None, noFunctions) == (a, t)
  {
    hide SearchPath, SearchFpath;
  }

  /** Another path neither uses the numbers remembered for PATH nor is remembered. */
  lemma OtherPath(world: World, s: State, name: string, dirs: seq<string>, k: nat, noFunctions: bool)
    requires '/' !in name && name !in world.builtins && (name in s.table ==> s.table[name].entry.Normal?)
    requires NoColons(dirs) && k < |dirs| && Colons(dirs) != []
    requires ExecutableAt(world.files, Place(s.cwd, dirs[k], name))
    requires forall j :: 0 <= j < k ==> !ExecutableAt(world.files, Place(s.cwd, dirs[j], name))
    requires k > 0 && k == |dirs| - 1 && dirs[k] == [] ==> Place(s.cwd, dirs[k - 1], name) in world.files
    requires forall p <- world.files.Keys :: !world.files[p].Missing?
    ensures Find(world, s, name, Some(Colons(dirs)), noFunctions) == (Is(Normal(k)), s)
  {
    hide Search, Place;
    SearchFinds(world.files, s.cwd, dirs, name, -1, k);
  }

  /** An answer that nothing is remembered for depends on functions only. */
  lemma FreshIs(world: World, s: State, name: string, alt: Option<string>, noFunctions: bool)
    requires name in s.table ==> !s.table[name].entry.Function?
    ensures Fresh(world, s, name, alt, noFunctions) == Find(world, s.(table := map[]), name, alt, noFunctions).0
  {
    hide SearchPath, SearchFpath;
  }

  /** A name with a slash is not looked up. */
  lemma SlashIsPath(world: World, s: State, name: string, alt: Option<string>, noFunctions: bool)
    requires '/' in name
    ensures Find(world, s, name, alt, noFunctions) == (Is(Normal(-1)), s)
  {
  }
}
