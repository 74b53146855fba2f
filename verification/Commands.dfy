/** Finding commands and remembering where they were (src/exec.c). */
module Commands {
  import opened Chars

  /** What is at a path. Reading a regular file as commands may define the function that it is named after. */
  datatype File = Missing | Irregular | Regular(executable: bool, defines: Option<int>)

  type Files = map<string, File>

  function Stat(files: Files, cwd: string, full: string): File {
    var place := if At(full, 0) == '/' then full else cwd + "/" + full;
    if place in files then files[place] else Missing
  }

  /** Up to the next colon. */
  function ToColon(path: string): (n: nat)
    ensures n <= |path| && (n < |path| ==> path[n] == ':') && forall i :: 0 <= i < n ==> path[i] != ':'
  {
    if path == [] || path[0] == ':' then 0 else 1 + ToColon(path[1..])
  }

  /** The name to try in one directory. */
  function Within(dir: string, name: string): string {
    if dir == [] then name else if dir[|dir| - 1] == '/' then dir + name else dir + "/" + name
  }

  /** `padvance`: the next name to try, and the rest of the path. */
  function Advance(path: string, name: string): (r: (string, Option<string>))
    ensures r.1.Some? ==> |r.1.value| < |path|
  {
    var n := ToColon(path);
    (Within(path[..n], name), if n < |path| then Some(path[n + 1..]) else None)
  }

  // ---------- Searching ----------

  /** The entry number where a search ended. `NoChange` is the remembered entry, not looked at again. */
  datatype Found = FoundAt(index: int) | NoChange | NotFound(last: int)

  /**
   * The loop over PATH, at the entries `rest`, with `index` entries before them. Behind a name that does not exist
   * the loop stops when the rest of the path is empty, although an empty entry would be the current directory.
   */
  function Search(files: Files, cwd: string, rest: string, name: string, index: int, prev: int): Found
    decreases |rest|
  {
    var (full, more) := Advance(rest, name);
    var i := index + 1;
    if At(full, 0) == '/' && i <= prev then
      if i == prev then NoChange else if more.Some? then Search(files, cwd, more.value, name, i, prev) else NotFound(i)
    else
      match Stat(files, cwd, full)
      case Missing => if more.Some? && more.value != [] then Search(files, cwd, more.value, name, i, prev) else NotFound(i)
      case Irregular => if more.Some? then Search(files, cwd, more.value, name, i, prev) else NotFound(i)
      case Regular(executable, _) =>
        if executable then FoundAt(i)
        else if more.Some? then Search(files, cwd, more.value, name, i, prev) else NotFound(i)
  }

  function SearchPath(files: Files, cwd: string, path: string, name: string, prev: int): Found {
    if path == [] then NotFound(-1) else Search(files, cwd, path, name, -1, prev)
  }

  /** The loop over FPATH: the first regular file is read. */
  datatype FoundFunction = Read(defines: Option<int>) | Skipped | Nowhere(last: int)

  function SearchFunctions(files: Files, cwd: string, rest: string, name: string, index: int, prev: int): FoundFunction
    decreases |rest|
  {
    var (full, more) := Advance(rest, name);
    var i := index + 1;
    if At(full, 0) == '/' && i <= prev then
      if i == prev then Skipped
      else if more.Some? then SearchFunctions(files, cwd, more.value, name, i, prev) else Nowhere(i)
    else
      match Stat(files, cwd, full)
      case Missing =>
        if more.Some? && more.value != [] then SearchFunctions(files, cwd, more.value, name, i, prev) else Nowhere(i)
      case Irregular => if more.Some? then SearchFunctions(files, cwd, more.value, name, i, prev) else Nowhere(i)
      case Regular(_, defines) => Read(defines)
  }

  function SearchFpath(files: Files, cwd: string, fpath: string, name: string, index: int, prev: int): FoundFunction {
    if fpath == [] then Nowhere(index) else SearchFunctions(files, cwd, fpath, name, index, prev)
  }

  // ---------- The table ----------

  datatype Entry = Normal(index: int) | Builtin | Function(id: int)

  /** `struct tblentry` */
  datatype Cached = Cached(entry: Entry, rehash: bool)

  /** What `find_command` answers; `Failed` is the error that a file did not define its function. */
  datatype Answer = Is(entry: Entry) | Unknown(last: int) | Failed

  datatype State = State(table: map<string, Cached>, cwd: string, path: string, fpath: string)

  /** What does not change. */
  datatype World = World(files: Files, builtins: set<string>)

  /** The entry for `name` that a lookup may use: not for another path, and not a function that is not wanted. */
  function Usable(s: State, name: string, alt: bool, noFunctions: bool): Option<Cached> {
    if name !in s.table then None
    else
      match s.table[name].entry
      case Normal(_) => if alt then None else Some(s.table[name])
      case Function(_) => if noFunctions then None else Some(s.table[name])
      case Builtin => Some(s.table[name])
  }

  function Enter(s: State, name: string, entry: Entry): State {
    s.(table := s.table[name := Cached(entry, false)])
  }

  /** A lookup, with PATH or with another path. */
  function Find(world: World, s: State, name: string, alt: Option<string>, noFunctions: bool): (Answer, State) {
    if '/' in name then (Is(Normal(-1)), s)
    else
      var cached := Usable(s, name, alt.Some?, noFunctions);
      var update := alt.None? && (name in s.table ==> cached.Some?);
      if cached.Some? && !cached.value.rehash then (Is(cached.value.entry), s)
      else if name in world.builtins then (Is(Builtin), if update then Enter(s, name, Builtin) else s)
      else
        var prev := if cached.Some? && cached.value.entry.Normal? then cached.value.entry.index else -1;
        match SearchPath(world.files, s.cwd, if alt.Some? then alt.value else s.path, name, prev)
        case FoundAt(i) => (Is(Normal(i)), if update then Enter(s, name, Normal(i)) else s)
        case NoChange => Confirmed(s, name, cached)
        case NotFound(i) =>
          match SearchFpath(world.files, s.cwd, s.fpath, name, i, prev)
          case Read(defines) =>
            if defines.Some? then (Is(Function(defines.value)), Enter(s, name, Function(defines.value)))
            else if name in s.table && s.table[name].entry.Function? then Confirmed(s, name, Some(s.table[name]))
            else (Failed, s)
          case Skipped => Confirmed(s, name, cached)
          case Nowhere(last) =>
            (Unknown(last), if cached.Some? && update then s.(table := s.table - {name}) else s)
  }

  /** The remembered entry is good for another time. */
  function Confirmed(s: State, name: string, cached: Option<Cached>): (Answer, State) {
    if cached.None? then (Failed, s) else (Is(cached.value.entry), Enter(s, name, cached.value.entry))
  }

  /** Functions are not in the table because they were found: they are what has been defined. */
  function OnlyFunctions(table: map<string, Cached>): map<string, Cached> {
    map name | name in table && table[name].entry.Function? :: table[name]
  }

  /** The answer of a lookup that nothing is remembered for. */
  function Fresh(world: World, s: State, name: string, alt: Option<string>, noFunctions: bool): Answer {
    Find(world, s.(table := OnlyFunctions(s.table)), name, alt, noFunctions).0
  }

  // ---------- Where PATH is cut short ----------

  /** All entries of a path; an empty one is the current directory. */
  function Entries(path: string): (dirs: seq<string>)
    ensures dirs != []
    decreases |path|
  {
    var n := ToColon(path);
    [path[..n]] + if n < |path| then Entries(path[n + 1..]) else []
  }

  predicate HasCommand(files: Files, cwd: string, dir: string, name: string) {
    var file := Stat(files, cwd, Within(dir, name));
    file.Regular? && file.executable
  }

  /** The first entry that has the command, when all are searched. */
  function FirstWith(files: Files, cwd: string, dirs: seq<string>, name: string, index: int): Option<int>
    decreases |dirs|
  {
    if dirs == [] then None
    else if HasCommand(files, cwd, dirs[0], name) then Some(index + 1)
    else FirstWith(files, cwd, dirs[1..], name, index + 1)
  }

  function Hit(r: Found): Option<int> { if r.FoundAt? then Some(r.index) else None }

  /** The last entry is empty, and no entry in front of it has the command, the one before it not even its name. */
  predicate StopsEarly(files: Files, cwd: string, dirs: seq<string>, name: string, index: int) {
    var k := |dirs| - 1;
    && k > 0 && dirs[k] == [] && FirstWith(files, cwd, dirs[..k], name, index).None?
    && Stat(files, cwd, Within(dirs[k - 1], name)).Missing?
  }

  /**
   * PATH is empty, or it ends in a colon and no entry in front of that has the command, the last of them not even a
   * file of its name; and the command is in the current directory.
   */
  predicate CutShort(files: Files, cwd: string, path: string, name: string) {
    HasCommand(files, cwd, [], name) && (path == [] || StopsEarly(files, cwd, Entries(path), name, -1))
  }

  lemma StopsBehind(files: Files, cwd: string, dir: string, behind: seq<string>, name: string, index: int)
    requires behind != []
    ensures StopsEarly(files, cwd, [dir] + behind, name, index) ==
              (!HasCommand(files, cwd, dir, name) &&
               if |behind| == 1 then behind[0] == [] && Stat(files, cwd, Within(dir, name)).Missing?
               else StopsEarly(files, cwd, behind, name, index + 1))
  {
    hide HasCommand, Stat, Within;
    var dirs, k := [dir] + behind, |behind|;
    assert dirs[..k] == [dir] + behind[..k - 1] && dirs[..k][1..] == behind[..k - 1];
    assert dirs[k] == behind[k - 1] && dirs[k - 1] == if k == 1 then dir else behind[k - 2];
    assert dirs[..k][0] == dir && (k == 1 ==> behind[..0] == []);
    assert FirstWith(files, cwd, dirs[..k], name, index).None? ==
      (!HasCommand(files, cwd, dir, name) && FirstWith(files, cwd, behind[..k - 1], name, index + 1).None?);
    if k > 1 {
      assert behind[k - 1] == dirs[k];
    }
  }

  lemma {:induction false} SearchStep(files: Files, cwd: string, rest: string, name: string, index: int)
    requires index >= -1
    ensures var dirs := Entries(rest);
            var r := Search(files, cwd, rest, name, index, -1);
            if HasCommand(files, cwd, dirs[0], name) then r == FoundAt(index + 1)
            else if |dirs| == 1 || (Stat(files, cwd, Within(dirs[0], name)).Missing? && dirs[1..] == [[]])
            then r == NotFound(index + 1)
            else r == Search(files, cwd, rest[ToColon(rest) + 1..], name, index + 1, -1)
    ensures var n := ToColon(rest); n < |rest| ==> Entries(rest)[1..] == Entries(rest[n + 1..])
    ensures Entries([]) == [[]]
  {
    hide Stat, Within;
    var n := ToColon(rest);
    if n < |rest| && rest[n + 1..] != [] {
      SomeEntry(rest[n + 1..]);
    }
  }

  lemma SomeEntry(path: string)
    requires path != []
    ensures Entries(path) != [[]]
  {
    if ToColon(path) == |path| {
      assert Entries(path)[0] == path;
    } else {
      EntriesOne(path);
    }
  }

  /** Searching the rest of a path. */
  lemma {:induction false} SearchIsFirst(files: Files, cwd: string, rest: string, name: string, index: int)
    requires index >= -1
    ensures var dirs := Entries(rest);
            var r := Hit(Search(files, cwd, rest, name, index, -1));
            if StopsEarly(files, cwd, dirs, name, index) && HasCommand(files, cwd, [], name)
            then r.None? && FirstWith(files, cwd, dirs, name, index).Some?
            else r == FirstWith(files, cwd, dirs, name, index)
    decreases |rest|
  {
    hide Stat, Within, HasCommand, StopsEarly, Search, Entries;
    var dirs, n := Entries(rest), ToColon(rest);
    SearchStep(files, cwd, rest, name, index);
    if |dirs| == 1 {
      NotEarly(files, cwd, dirs, name, index);
    } else {
      var behind := dirs[1..];
      assert dirs == [dirs[0]] + behind;
      EntriesOne(rest);
      SearchIsFirst(files, cwd, rest[n + 1..], name, index + 1);
      StopsBehind(files, cwd, dirs[0], behind, name, index);
      NotEarly(files, cwd, behind, name, index + 1);
    }
  }

  lemma EntriesOne(path: string)
    ensures |Entries(path)| == 1 <==> ToColon(path) == |path|
  {
  }

  lemma NotEarly(files: Files, cwd: string, dirs: seq<string>, name: string, index: int)
    ensures |dirs| == 1 ==> !StopsEarly(files, cwd, dirs, name, index)
  {
  }

  /** A search of PATH finds what searching all its entries finds, unless PATH is cut short, and then it does not. */
  lemma SearchIsWhole(files: Files, cwd: string, path: string, name: string)
    ensures Hit(SearchPath(files, cwd, path, name, -1)) == FirstWith(files, cwd, Entries(path), name, -1)
            <==> !CutShort(files, cwd, path, name)
  {
    if path == [] {
      assert Entries([]) == [[]];
    } else {
      SearchIsFirst(files, cwd, path, name, -1);
    }
  }

  /** With PATH `bin:`, a command in the current directory is not found when there is no `bin/c`. */
  lemma CutShortHappens() returns (files: Files)
    ensures SearchPath(files, "/b", "bin:", "c", -1) == NotFound(0) && CutShort(files, "/b", "bin:", "c")
    ensures FirstWith(files, "/b", Entries("bin:"), "c", -1) == Some(1)
  {
    files := map["/b/c" := Regular(true, None)];
    NamesTried();
    assert "/b" + "/" + "bin/c" == "/b/bin/c" && "/b/bin/c"[4] == 'i' && "/b" + "/" + "c" == "/b/c";
    var path := "bin:";
    assert path[..3] == "bin" && path[4..] == [] && Entries([]) == [[]];
    assert Entries(path) == ["bin", []];
    SearchIsWhole(files, "/b", path, "c");
  }

  // ---------- Right answers ----------

  /** Where `name` was once found on the current PATH. */
  ghost predicate OnceFound(world: World, path: string, name: string, index: int) {
    exists cwd :: SearchPath(world.files, cwd, path, name, -1) == FoundAt(index)
  }

  ghost predicate EntryFits(world: World, s: State, name: string)
    requires name in s.table
  {
    var c := s.table[name];
    match c.entry
    case Function(_) => !c.rehash
    case Builtin => !c.rehash && name in world.builtins && '/' !in name
    case Normal(i) =>
      && name !in world.builtins && '/' !in name && i >= 0 && OnceFound(world, s.path, name, i)
      && (!c.rehash ==> SearchPath(world.files, s.cwd, s.path, name, -1) == FoundAt(i))
  }

  ghost predicate Consistent(world: World, s: State) {
    forall name :: name in s.table ==> EntryFits(world, s, name)
  }

  lemma {:induction false} FoundBehind(files: Files, cwd: string, rest: string, name: string, index: int)
    ensures match Search(files, cwd, rest, name, index, -1)
            case FoundAt(i) => i > index
            case NoChange => index < -1
            case NotFound(i) => i > index
    decreases |rest|
  {
    var more := Advance(rest, name).1;
    if more.Some? {
      FoundBehind(files, cwd, more.value, name, index + 1);
    }
  }

  /** Behind the remembered entry a search is like any other. */
  lemma {:induction false} SameBehind(files: Files, cwd: string, rest: string, name: string, index: int, prev: int)
    requires index >= prev >= -1
    ensures Search(files, cwd, rest, name, index, prev) == Search(files, cwd, rest, name, index, -1)
    decreases |rest|
  {
    hide Stat;
    var more := Advance(rest, name).1;
    if more.Some? {
      SameBehind(files, cwd, more.value, name, index + 1, prev);
    }
  }

  lemma {:induction false} SameFunctions(files: Files, cwd: string, rest: string, name: string, index: int, prev: int)
    requires index >= prev >= -1
    ensures SearchFunctions(files, cwd, rest, name, index, prev) == SearchFunctions(files, cwd, rest, name, index, -1)
    decreases |rest|
  {
    hide Stat;
    var more := Advance(rest, name).1;
    if more.Some? {
      SameFunctions(files, cwd, more.value, name, index + 1, prev);
    }
  }

  predicate EndsInColon(path: string) { path != [] && path[|path| - 1] == ':' }

  lemma AdvanceEnd(path: string, name: string)
    ensures var more := Advance(path, name).1;
            more == Some([]) ==> EndsInColon(path)
    ensures var more := Advance(path, name).1;
            more.Some? && EndsInColon(more.value) ==> EndsInColon(path)
    ensures Advance([], name) == (name, None)
  {
  }

  /** How a search that may skip what was once found at entry `i` differs from one that does not. */
  ghost predicate Agree(first: Found, again: Found, i: int, path: string) {
    match first
    case FoundAt(j) => again == first || (again == NoChange && j == i)
    case NotFound(last) => again == first && (last < i ==> i == last + 1 && EndsInColon(path))
    case NoChange => false
  }

  /**
   * Absolute entries in front of the one where the command was found need not be searched again: wherever the shell
   * is now, they do not have it. But the loop may stop one entry too early.
   */
  lemma {:induction false} SkipsRight(files: Files, there: string, cwd: string, rest: string, name: string, index: int, i: int)
    requires index >= -1 && Search(files, there, rest, name, index, -1) == FoundAt(i)
    ensures Agree(Search(files, cwd, rest, name, index, -1), Search(files, cwd, rest, name, index, i), i, rest)
    decreases |rest|
  {
    hide Advance, EndsInColon;
    var (full, more) := Advance(rest, name);
    AdvanceEnd(rest, name);
    FoundBehind(files, there, rest, name, index);
    if more.Some? {
      FoundBehind(files, there, more.value, name, index + 1);
      FoundBehind(files, cwd, more.value, name, index + 1);
      if index + 1 < i {
        SkipsRight(files, there, cwd, more.value, name, index + 1, i);
      } else {
        SameBehind(files, cwd, more.value, name, index + 1, i);
      }
    }
  }

  /**
   * The one case in which a remembered entry gives a wrong answer: the shell has changed directory, PATH ends in a
   * colon, the command was found through the empty entry behind it, and the search now stops in front of that entry;
   * then the first directory of FPATH, if absolute, is taken for the remembered entry.
   */
  predicate Stale(world: World, s: State, name: string, alt: Option<string>) {
    && alt.None? && '/' !in name && name in s.table && s.table[name].entry.Normal? && s.table[name].rehash
    && (var r := SearchPath(world.files, s.cwd, s.path, name, -1); r.NotFound? && r.last < s.table[name].entry.index)
    && At(s.fpath, 0) == '/'
  }

  lemma ConsistentEntry(world: World, s: State, name: string)
    requires Consistent(world, s) && name in s.table
    ensures EntryFits(world, s, name)
  {
  }

  /** The search of PATH for a command that was found before the shell changed directory. */
  lemma Rehash(world: World, s: State, name: string)
    requires name in s.table && EntryFits(world, s, name) && s.table[name].entry.Normal?
    ensures var i := s.table[name].entry.index;
            Agree(SearchPath(world.files, s.cwd, s.path, name, -1), SearchPath(world.files, s.cwd, s.path, name, i), i, s.path)
  {
    hide Search;
    var i := s.table[name].entry.index;
    var there :| SearchPath(world.files, there, s.path, name, -1) == FoundAt(i);
    SkipsRight(world.files, there, s.cwd, s.path, name, -1, i);
  }

  /** FPATH is searched as ever, unless its first directory has the number of the remembered entry. */
  lemma RehashFunctions(files: Files, cwd: string, fpath: string, name: string, last: int, i: int)
    requires last >= -1 && i >= 0 && last + 1 >= i && '/' !in name
    ensures var first := SearchFpath(files, cwd, fpath, name, last, -1);
            var again := SearchFpath(files, cwd, fpath, name, last, i);
            && !first.Skipped?
            && again == if last + 1 == i && At(fpath, 0) == '/' then Skipped else first
  {
    hide Stat, Advance;
    FunctionsBehind(files, cwd, fpath, name, last);
    if last >= i {
      SameFunctions(files, cwd, fpath, name, last, i);
    } else if fpath != [] {
      var (full, more) := Advance(fpath, name);
      FirstName(fpath, name);
      if more.Some? {
        SameFunctions(files, cwd, more.value, name, last + 1, i);
      }
    }
  }

  lemma FirstName(path: string, name: string)
    requires '/' !in name && path != []
    ensures At(Advance(path, name).0, 0) == '/' <==> path[0] == '/'
  {
  }

  lemma {:induction false} FunctionsBehind(files: Files, cwd: string, rest: string, name: string, index: int)
    requires index >= -1
    ensures !SearchFunctions(files, cwd, rest, name, index, -1).Skipped?
    decreases |rest|
  {
    var more := Advance(rest, name).1;
    if more.Some? {
      FunctionsBehind(files, cwd, more.value, name, index + 1);
    }
  }

  lemma PathBehind(files: Files, cwd: string, path: string, name: string)
    ensures var r := SearchPath(files, cwd, path, name, -1);
            match r case FoundAt(i) => i >= 0 case NoChange => false case NotFound(i) => i >= -1
  {
    FoundBehind(files, cwd, path, name, -1);
  }

  /** A lookup that may use what is remembered answers like one that may not, exactly when it is not stale. */
  lemma AnswerIsFresh(world: World, s: State, name: string, alt: Option<string>, noFunctions: bool)
    requires Consistent(world, s)
    ensures (Find(world, s, name, alt, noFunctions).0 == Fresh(world, s, name, alt, noFunctions)) <==>
            !Stale(world, s, name, alt)
  {
    hide SearchPath, SearchFpath, Consistent;
    if '/' !in name && name in s.table {
      ConsistentEntry(world, s, name);
      var c := s.table[name];
      if c.entry.Normal? && alt.None? {
        var r := SearchPath(world.files, s.cwd, s.path, name, -1);
        PathBehind(world.files, s.cwd, s.path, name);
        Rehash(world, s, name);
        if r.NotFound? {
          RehashFunctions(world.files, s.cwd, s.fpath, name, r.last, c.entry.index);
        }
      }
    }
  }

  /** A lookup that is not stale leaves a table that gives right answers. */
  lemma StaysConsistent(world: World, s: State, name: string, alt: Option<string>, noFunctions: bool)
    requires Consistent(world, s) && !Stale(world, s, name, alt)
    ensures Consistent(world, Find(world, s, name, alt, noFunctions).1)
  {
    hide SearchPath, SearchFpath, Consistent;
    var t := Find(world, s, name, alt, noFunctions).1;
    forall other | other in t.table
      ensures EntryFits(world, t, other)
    {
      if other in s.table {
        ConsistentEntry(world, s, other);
      }
      if other == name && '/' !in name {
        EntryStays(world, s, name, alt, noFunctions);
      }
    }
    Collected(world, t);
  }

  lemma Collected(world: World, t: State)
    requires forall other :: other in t.table ==> EntryFits(world, t, other)
    ensures Consistent(world, t)
  {
    hide EntryFits;
  }

  lemma EntryStays(world: World, s: State, name: string, alt: Option<string>, noFunctions: bool)
    requires Consistent(world, s) && !Stale(world, s, name, alt) && '/' !in name
    ensures var t := Find(world, s, name, alt, noFunctions).1; name in t.table ==> EntryFits(world, t, name)
  {
    hide SearchPath, SearchFpath, Consistent;
    var path := if alt.Some? then alt.value else s.path;
    var r := SearchPath(world.files, s.cwd, path, name, -1);
    PathBehind(world.files, s.cwd, path, name);
    if name in s.table {
      ConsistentEntry(world, s, name);
      if s.table[name].entry.Normal? && alt.None? {
        Rehash(world, s, name);
        if r.NotFound? {
          RehashFunctions(world.files, s.cwd, s.fpath, name, r.last, s.table[name].entry.index);
        }
      }
    }
  }

  // ---------- Runs ----------

  datatype Op =
    | Lookup(name: string, alt: Option<string>, noFunctions: bool)
    | Chdir(dir: string)
    | SetPath(path: string)
    | SetFpath(path: string)
    | Define(name: string, id: int)
    | Undefine(name: string)

  /** `hashcd` */
  function Marked(table: map<string, Cached>): map<string, Cached> {
    map name | name in table :: if table[name].entry.Normal? then table[name].(rehash := true) else table[name]
  }

  function Apply(world: World, s: State, op: Op): State {
    match op
    case Lookup(name, alt, noFunctions) => Find(world, s, name, alt, noFunctions).1
    case Chdir(dir) => s.(cwd := dir, table := Marked(s.table))
    case SetPath(path) => s.(path := path, table := OnlyFunctions(s.table))
    case SetFpath(path) => s.(fpath := path)
    case Define(name, id) => Enter(s, name, Function(id))
    case Undefine(name) =>
      if name in s.table && s.table[name].entry.Function? then s.(table := s.table - {name}) else s
  }

  /** Every lookup of a run answers as if nothing were remembered. */
  ghost predicate AllFresh(world: World, s: State, ops: seq<Op>)
    decreases |ops|
  {
    ops == [] ||
    (&& (ops[0].Lookup? ==>
           var o := ops[0];
           Find(world, s, o.name, o.alt, o.noFunctions).0 == Fresh(world, s, o.name, o.alt, o.noFunctions))
     && AllFresh(world, Apply(world, s, ops[0]), ops[1..]))
  }

  ghost predicate NeverStale(world: World, s: State, ops: seq<Op>)
    decreases |ops|
  {
    ops == [] ||
    (&& (ops[0].Lookup? ==> !Stale(world, s, ops[0].name, ops[0].alt))
     && NeverStale(world, Apply(world, s, ops[0]), ops[1..]))
  }

  lemma OthersStay(world: World, s: State, op: Op)
    requires Consistent(world, s) && !op.Lookup?
    ensures Consistent(world, Apply(world, s, op))
  {
    hide SearchPath, Consistent;
    var t := Apply(world, s, op);
    forall name | name in t.table
      ensures EntryFits(world, t, name)
    {
      if name in s.table {
        ConsistentEntry(world, s, name);
      }
    }
    Collected(world, t);
  }

  /** In every run, what is remembered changes no answer, exactly when no lookup is stale. */
  lemma {:induction false} RunIsFresh(world: World, s: State, ops: seq<Op>)
    requires Consistent(world, s)
    ensures AllFresh(world, s, ops) <==> NeverStale(world, s, ops)
    decreases |ops|
  {
    hide Find, Fresh, Stale, Consistent;
    if ops != [] {
      var o := ops[0];
      if o.Lookup? {
        AnswerIsFresh(world, s, o.name, o.alt, o.noFunctions);
        if !Stale(world, s, o.name, o.alt) {
          StaysConsistent(world, s, o.name, o.alt, o.noFunctions);
          RunIsFresh(world, Apply(world, s, o), ops[1..]);
        }
      } else {
        OthersStay(world, s, o);
        RunIsFresh(world, Apply(world, s, o), ops[1..]);
      }
    }
  }

  function Run(world: World, s: State, ops: seq<Op>): State
    decreases |ops|
  {
    if ops == [] then s else Run(world, Apply(world, s, ops[0]), ops[1..])
  }

  /** What may give `name` another meaning: a definition, and `command`, which may read a file from FPATH. */
  predicate Redefines(op: Op, name: string) {
    match op
    case Define(n, _) => n == name
    case Undefine(n) => n == name
    case Lookup(n, _, noFunctions) => n == name && noFunctions
    case _ => false
  }

  /** A function is found behind any run that does not redefine it, whatever happens to PATH and the directory. */
  lemma {:induction false} FunctionStays(world: World, s: State, name: string, id: int, ops: seq<Op>, alt: Option<string>)
    requires name in s.table && s.table[name] == Cached(Function(id), false) && '/' !in name
    requires forall op <- ops :: !Redefines(op, name)
    ensures Find(world, Run(world, s, ops), name, alt, false).0 == Is(Function(id))
    decreases |ops|
  {
    hide SearchPath, SearchFpath;
    if ops != [] {
      assert !Redefines(ops[0], name);
      FunctionStays(world, Apply(world, s, ops[0]), name, id, ops[1..], alt);
    }
  }

  predicate NoColons(ops: seq<Op>) {
    forall i :: 0 <= i < |ops| && ops[i].SetPath? ==> !EndsInColon(ops[i].path)
  }

  /** So no run whose PATH never ends in a colon is affected. */
  lemma {:induction false} NoColonIsFresh(world: World, s: State, ops: seq<Op>)
    requires Consistent(world, s) && !EndsInColon(s.path) && NoColons(ops)
    ensures AllFresh(world, s, ops) && NeverStale(world, s, ops)
    decreases |ops|
  {
    hide Find, Fresh, Stale, Consistent, EndsInColon;
    if ops != [] {
      var o := ops[0];
      if o.Lookup? {
        NoColonNotStale(world, s, o.name, o.alt);
        AnswerIsFresh(world, s, o.name, o.alt, o.noFunctions);
        StaysConsistent(world, s, o.name, o.alt, o.noFunctions);
        PathStays(world, s, o.name, o.alt, o.noFunctions);
      } else {
        OthersStay(world, s, o);
      }
      NoColonIsFresh(world, Apply(world, s, o), ops[1..]);
    }
  }

  lemma PathStays(world: World, s: State, name: string, alt: Option<string>, noFunctions: bool)
    ensures Find(world, s, name, alt, noFunctions).1.path == s.path
  {
    hide SearchPath, SearchFpath;
  }

  lemma NoColonNotStale(world: World, s: State, name: string, alt: Option<string>)
    requires Consistent(world, s) && !EndsInColon(s.path)
    ensures !Stale(world, s, name, alt)
  {
    hide SearchPath, Consistent, EndsInColon;
    if Stale(world, s, name, alt) {
      ConsistentEntry(world, s, name);
      Rehash(world, s, name);
    }
  }

  /** The shell starts with nothing remembered. */
  lemma NothingRemembered(world: World, s: State)
    requires s.table == map[]
    ensures Consistent(world, s)
  {
  }

  /**
   * With PATH `bin:` and FPATH `/f`, a command `c` that was found in the directory `/a`, where `bin/c` is a file that
   * cannot be executed, is still said to be in the empty entry when the shell has gone to `/b`, where it is not.
   */
  lemma StaleHappens() returns (world: World, s: State, ops: seq<Op>)
    ensures s.table == map[] && !AllFresh(world, s, ops)
  {
    world := World(map["/a/bin/c" := Regular(false, None), "/a/c" := Regular(true, None)], {});
    s := State(map[], "/a", "bin:", "/f");
    var look := Lookup("c", None, false);
    ops := [look, Chdir("/b"), look];
    NothingRemembered(world, s);
    RunIsFresh(world, s, ops);
    StaleSearches(world.files);
    hide Search;
    var s1 := Apply(world, s, look);
    assert s1.table == map["c" := Cached(Normal(1), false)];
    var s2 := Apply(world, s1, Chdir("/b"));
    assert Stale(world, s2, "c", None);
    assert ops[1..][1..][0] == look;
    assert !NeverStale(world, s2, ops[1..][1..]);
  }

  lemma StaleSearches(files: Files)
    requires files == map["/a/bin/c" := Regular(false, None), "/a/c" := Regular(true, None)]
    ensures Search(files, "/a", "bin:", "c", -1, -1) == FoundAt(1) && Search(files, "/b", "bin:", "c", -1, -1) == NotFound(0)
    ensures '/' !in "c"
  {
    NamesTried();
    assert "/a" + "/" + "bin/c" == "/a/bin/c" && "/a" + "/" + "c" == "/a/c";
    assert Search(files, "/a", [], "c", 0, -1) == FoundAt(1);
    assert "/b" + "/" + "bin/c" == "/b/bin/c" && "/b/bin/c"[1] == 'b';
  }

  lemma NamesTried()
    ensures Advance("bin:", "c") == ("bin/c", Some([])) && Advance([], "c") == ("c", None) && '/' !in "c"
  {
    var path := "bin:";
    assert ToColon(path[3..]) == 0 && ToColon(path[2..]) == 1 && ToColon(path[1..]) == 2 && ToColon(path) == 3;
    assert path[..3] == "bin" && "bin" + "/" + "c" == "bin/c" && path[4..] == [];
  }

  // ---------- The table itself ----------

  class Table {
    const world: World
    var table: map<string, Cached>
    var cwd: string
    var path: string
    var fpath: string

    constructor (world: World, cwd: string, path: string, fpath: string)
      ensures this.world == world && Now() == State(map[], cwd, path, fpath)
    {
      this.world, this.cwd, this.path, this.fpath := world, cwd, path, fpath;
      table := map[];
    }

    ghost function Now(): State
      reads this
    {
      State(table, cwd, path, fpath)
    }

    /** The loop over PATH in `find_command`. */
    method TryPath(path0: string, name: string, prev: int) returns (r: Found)
      ensures r == SearchPath(world.files, cwd, path0, name, prev)
    {
      var idx := -1;
      if path0 == [] {
        return NotFound(idx);
      }
      var rest := path0;
      while true
        invariant SearchPath(world.files, cwd, path0, name, prev) == Search(world.files, cwd, rest, name, idx, prev)
        decreases |rest|
      {
        var (full, more) := Advance(rest, name);
        idx := idx + 1;
        var missing := false;
        if At(full, 0) == '/' && idx <= prev {
          if idx == prev {
            return NoChange;
          }
        } else {
          var file := Stat(world.files, cwd, full);
          if file.Regular? && file.executable {
            return FoundAt(idx);
          }
          missing := file.Missing?;
        }
        if more.None? || (missing && more.value == []) {
          return NotFound(idx);
        }
        rest := more.value;
      }
    }

    /** The loop over FPATH. */
    method TryFpath(name: string, last: int, prev: int) returns (r: FoundFunction)
      ensures r == SearchFpath(world.files, cwd, fpath, name, last, prev)
    {
      var idx := last;
      if fpath == [] {
        return Nowhere(idx);
      }
      var rest := fpath;
      while true
        invariant SearchFpath(world.files, cwd, fpath, name, last, prev) ==
                    SearchFunctions(world.files, cwd, rest, name, idx, prev)
        decreases |rest|
      {
        var (full, more) := Advance(rest, name);
        idx := idx + 1;
        var missing := false;
        if At(full, 0) == '/' && idx <= prev {
          if idx == prev {
            return Skipped;
          }
        } else {
          var file := Stat(world.files, cwd, full);
          if file.Regular? {
            return Read(file.defines);
          }
          missing := file.Missing?;
        }
        if more.None? || (missing && more.value == []) {
          return Nowhere(idx);
        }
        rest := more.value;
      }
    }

    /** `find_command`; `alt` is a path that is not that of the variable PATH. */
    method FindCommand(name: string, alt: Option<string>, noFunctions: bool) returns (a: Answer)
      modifies `table
      ensures (a, Now()) == Find(world, old(Now()), name, alt, noFunctions)
    {
      hide SearchPath, SearchFpath;
      if '/' in name {
        return Is(Normal(-1));
      }
      var updatetbl := alt.None?;
      var cmdp: Option<Cached> := None;
      if name in table {
        var c := table[name];
        if (c.entry.Normal? && alt.Some?) || (c.entry.Function? && noFunctions) {
          updatetbl := false;
        } else {
          cmdp := Some(c);
          if !c.rehash {
            return Is(c.entry);
          }
        }
      }
      if name in world.builtins {
        if updatetbl {
          table := table[name := Cached(Builtin, false)];
        }
        return Is(Builtin);
      }
      var prev := if cmdp.Some? && cmdp.value.entry.Normal? then cmdp.value.entry.index else -1;
      var found := TryPath(if alt.Some? then alt.value else path, name, prev);
      if found.FoundAt? {
        if updatetbl {
          table := table[name := Cached(Normal(found.index), false)];
        }
        return Is(Normal(found.index));
      }
      var last := -1;
      if found.NotFound? {
        var f := TryFpath(name, found.last, prev);
        match f {
          case Read(defines) =>
            if defines.None? {
              if name !in table || !table[name].entry.Function? {
                return Failed;
              }
              table := table[name := Cached(table[name].entry, false)];
              return Is(table[name].entry);
            }
            table := table[name := Cached(Function(defines.value), false)];
            return Is(Function(defines.value));
          case Nowhere(n) =>
            if cmdp.Some? && updatetbl {
              table := table - {name};
            }
            return Unknown(n);
          case Skipped =>
        }
      }
      if cmdp.None? {
        return Failed;
      }
      table := table[name := Cached(cmdp.value.entry, false)];
      a := Is(cmdp.value.entry);
    }

    /** `hashcd`, behind a change of directory. */
    method HashCd(dir: string)
      modifies `table, `cwd
      ensures Now() == Apply(world, old(Now()), Chdir(dir))
    {
      cwd := dir;
      var names := table.Keys;
      while names != {}
        invariant cwd == dir && names <= table.Keys == old(table).Keys
        invariant forall n :: n in table ==> table[n] == if n in names then old(table)[n] else Marked(old(table))[n]
        decreases |names|
      {
        var n :| n in names;
        names := names - {n};
        if table[n].entry.Normal? {
          table := table[n := table[n].(rehash := true)];
        }
      }
      assert table == Marked(old(table));
    }

    /** `changepath`: `clearcmdentry`, and the new value. */
    method ChangePath(newval: string)
      modifies `table, `path
      ensures Now() == Apply(world, old(Now()), SetPath(newval))
    {
      var names := table.Keys;
      while names != {}
        invariant names <= table.Keys <= old(table).Keys
        invariant forall n :: n in old(table) ==>
                    if n in names then n in table && table[n] == old(table)[n]
                    else (n in table <==> old(table)[n].entry.Function?) && (n in table ==> table[n] == old(table)[n])
        decreases |names|
      {
        var n :| n in names;
        names := names - {n};
        if table[n].entry.Normal? || table[n].entry.Builtin? {
          table := table - {n};
        }
      }
      assert table == OnlyFunctions(old(table));
      path := newval;
    }

    /** `defun` */
    method Defun(name: string, id: int)
      modifies `table
      ensures Now() == Apply(world, old(Now()), Define(name, id))
    {
      table := table[name := Cached(Function(id), false)];
    }

    /** `unsetfunc` */
    method UnsetFunc(name: string)
      modifies `table
      ensures Now() == Apply(world, old(Now()), Undefine(name))
    {
      if name in table && table[name].entry.Function? {
        table := table - {name};
      }
    }

    /** One step of a run. */
    method Step(op: Op) returns (a: Option<Answer>)
      modifies this
      ensures Now() == Apply(world, old(Now()), op)
      ensures op.Lookup? ==> a == Some(Find(world, old(Now()), op.name, op.alt, op.noFunctions).0)
    {
      hide Find, Marked, OnlyFunctions;
      a := None;
      match op {
        case Lookup(name, alt, noFunctions) =>
          var answer := FindCommand(name, alt, noFunctions);
          a := Some(answer);
        case Chdir(dir) => HashCd(dir);
        case SetPath(newval) => ChangePath(newval);
        case SetFpath(newval) => fpath := newval;
        case Define(name, id) => Defun(name, id);
        case Undefine(name) => UnsetFunc(name);
      }
    }
  }
}
