/** The logical current directory (src/cd.c). */
module Cd {
  import opened Chars

  // ---------- Paths ----------

  /** Up to the next slash. */
  function ToSlash(s: string): (n: nat)
    ensures n <= |s| && (n < |s| ==> s[n] == '/') && forall i :: 0 <= i < n ==> s[i] != '/'
  {
    if s == [] || s[0] == '/' then 0 else 1 + ToSlash(s[1..])
  }

  /** The parts of a path between slashes, without empty ones. */
  function Components(s: string): seq<string>
    decreases |s|
  {
    var n := ToSlash(s);
    var rest := if n < |s| then Components(s[n + 1..]) else [];
    if n == 0 then rest else [s[..n]] + rest
  }

  /** The root of an absolute path: exactly two slashes in front are kept. */
  function Root(s: string): string {
    if |s| >= 2 && s[0] == '/' && s[1] == '/' && At(s, 2) != '/' then "//" else "/"
  }

  function Joined(comps: seq<string>): string {
    if comps == [] then []
    else if |comps| == 1 then comps[0]
    else Joined(comps[..|comps| - 1]) + "/" + comps[|comps| - 1]
  }

  function Render(root: string, comps: seq<string>): string {
    root + Joined(comps)
  }

  predicate IsName(c: string) { c != [] && '/' !in c && c != "." && c != ".." }

  predicate AllNames(comps: seq<string>) { forall i :: 0 <= i < |comps| ==> IsName(comps[i]) }

  /** A path that names a directory in one way only. */
  ghost predicate Canonical(path: string) {
    exists root, comps :: root in {"/", "//"} && AllNames(comps) && path == Render(root, comps)
  }

  // ---------- What `cd` means ----------

  /** A place that a path has come to. */
  datatype Spot = Spot(root: string, at: seq<string>)

  predicate IsRoot(root: string) { root == "/" || root == "//" }

  function Parent(at: seq<string>): seq<string> { if at == [] then [] else at[..|at| - 1] }

  /** One directory up. The first `lim` characters are not taken back, so of two slashes one may be. */
  function Up(root: string, lim: nat, at: seq<string>): Spot {
    if |root| > lim && |at| <= 1 then Spot("/", []) else Spot(root, Parent(at))
  }

  /** Following components; None when `..` is used in something that does not exist. */
  function Follow(present: set<string>, root: string, lim: nat, at: seq<string>, comps: seq<string>): Option<Spot>
    decreases |comps|
  {
    if comps == [] then Some(Spot(root, at))
    else if comps[0] == "." then Follow(present, root, lim, at, comps[1..])
    else if comps[0] == ".." then
      if Render(root, at) + "/" !in present then None
      else
        var up := Up(root, lim, at);
        Follow(present, up.root, lim, up.at, comps[1..])
    else Follow(present, root, lim, at + [comps[0]], comps[1..])
  }

  lemma {:induction false} FollowNames(present: set<string>, root: string, lim: nat, at: seq<string>, comps: seq<string>)
    requires IsRoot(root) && AllNames(at) && forall i :: 0 <= i < |comps| ==> comps[i] != [] && '/' !in comps[i]
    ensures var r := Follow(present, root, lim, at, comps); r.Some? ==> IsRoot(r.value.root) && AllNames(r.value.at)
    ensures var r := Follow(present, root, lim, at, comps); r.Some? && |root| <= lim ==> r.value.root == root
    decreases |comps|
  {
    if comps != [] {
      if comps[0] == "." {
        FollowNames(present, root, lim, at, comps[1..]);
      } else if comps[0] == ".." {
        FollowNames(present, Up(root, lim, at).root, lim, Up(root, lim, at).at, comps[1..]);
      } else {
        FollowNames(present, root, lim, at + [comps[0]], comps[1..]);
      }
    }
  }

  lemma {:induction false} ComponentsAre(s: string)
    ensures forall i :: 0 <= i < |Components(s)| ==> Components(s)[i] != [] && '/' !in Components(s)[i]
    decreases |s|
  {
    if ToSlash(s) < |s| {
      ComponentsAre(s[ToSlash(s) + 1..]);
    }
  }

  /** Names are followed as they are. */
  lemma {:induction false} FollowPlain(present: set<string>, root: string, lim: nat, at: seq<string>, comps: seq<string>,
                                       rest: seq<string>)
    requires AllNames(comps)
    ensures Follow(present, root, lim, at, comps + rest) == Follow(present, root, lim, at + comps, rest)
    decreases |comps|
  {
    if comps == [] {
      assert at + comps == at && comps + rest == rest;
    } else {
      FollowPlain(present, root, lim, at + [comps[0]], comps[1..], rest);
      assert at + comps == at + [comps[0]] + comps[1..] && (comps + rest)[1..] == comps[1..] + rest;
    }
  }

  lemma FollowOnly(present: set<string>, root: string, lim: nat, at: seq<string>, comps: seq<string>)
    requires AllNames(comps)
    ensures Follow(present, root, lim, at, comps) == Some(Spot(root, at + comps))
  {
    FollowPlain(present, root, lim, at, comps, []);
    assert comps + [] == comps;
  }

  lemma {:induction false} ToSlashName(c: string, rest: string)
    requires '/' !in c && (rest == [] || rest[0] == '/')
    ensures ToSlash(c + rest) == |c|
  {
    if c == [] {
      assert c + rest == rest;
    } else {
      assert (c + rest)[1..] == c[1..] + rest;
      ToSlashName(c[1..], rest);
    }
  }

  function OneName(c: string): seq<string> { if c == [] then [] else [c] }

  lemma ComponentsOne(c: string)
    requires '/' !in c
    ensures Components(c) == OneName(c)
  {
    ToSlashName(c, []);
    assert c + [] == c && c[..|c|] == c;
  }

  lemma ComponentsFirst(c: string, rest: string)
    requires '/' !in c
    ensures Components(c + "/" + rest) == OneName(c) + Components(rest)
  {
    var s := c + "/" + rest;
    Assoc(c, "/", rest);
    ToSlashName(c, "/" + rest);
    assert s[..|c|] == c && s[|c| + 1..] == rest;
  }

  lemma {:induction false} ComponentsPlus(a: string, b: string)
    ensures Components(a + "/" + b) == Components(a) + Components(b)
    decreases |a|
  {
    hide Components;
    var n := ToSlash(a);
    if n == |a| {
      ComponentsOne(a);
      ComponentsFirst(a, b);
    } else {
      var c, rest := a[..n], a[n + 1..];
      assert a == c + "/" + rest;
      ComponentsFirst(c, rest);
      ComponentsFirst(c, rest + "/" + b);
      assert a + "/" + b == c + "/" + (rest + "/" + b);
      ComponentsPlus(rest, b);
    }
  }

  /** The components of a canonical path are what it was made of. */
  lemma {:induction false} ComponentsJoined(comps: seq<string>)
    requires AllNames(comps)
    ensures Components(Joined(comps)) == comps
    decreases |comps|
  {
    hide Components;
    if comps == [] {
      ComponentsOne([]);
    } else {
      var k := |comps| - 1;
      ComponentsOne(comps[k]);
      if k > 0 {
        ComponentsJoined(comps[..k]);
        ComponentsPlus(Joined(comps[..k]), comps[k]);
        assert comps == comps[..k] + [comps[k]];
      }
    }
  }

  lemma ComponentsSlash(s: string)
    ensures Components("/" + s) == Components(s)
  {
    assert ("/" + s)[1..] == s;
  }

  /** The components of `root + s`. */
  lemma ComponentsRooted(root: string, s: string)
    requires root == "/" || root == "//"
    ensures Components(root + s) == Components(s)
  {
    if root == "//" {
      ComponentsSlash("/" + s);
      assert "/" + ("/" + s) == "//" + s;
    }
    ComponentsSlash(s);
  }

  /** The new name of the current directory, an error because part of it is missing, or no name because none is known. */
  datatype Place = Named(path: string) | Missing | Unnamed

  /** `updatepwd`: only a name that starts from the root keeps two slashes in any case. */
  function Moved(present: set<string>, curdir: string, dir: string): Place {
    if dir != [] && dir[0] == '/' then Rendered(Follow(present, Root(dir), |Root(dir)|, [], Components(dir)))
    else if curdir == [] then Unnamed
    else Rendered(Follow(present, Root(curdir), 1, Components(curdir), Components(dir)))
  }

  function Rendered(r: Option<Spot>): Place {
    if r.Some? then Named(Render(r.value.root, r.value.at)) else Missing
  }

  /** The result is canonical. */
  lemma MovedCanonical(present: set<string>, curdir: string, dir: string)
    requires curdir != [] ==> AllNames(Components(curdir))
    ensures Moved(present, curdir, dir).Named? ==> Canonical(Moved(present, curdir, dir).path)
  {
    ComponentsAre(dir);
    if dir != [] && dir[0] == '/' {
      FollowNames(present, Root(dir), |Root(dir)|, [], Components(dir));
    } else if curdir != [] {
      FollowNames(present, Root(curdir), 1, Components(curdir), Components(dir));
    }
  }

  lemma {:induction false} JoinedStart(comps: seq<string>)
    requires AllNames(comps)
    ensures comps != [] ==> Joined(comps) != [] && Joined(comps)[0] != '/'
    decreases |comps|
  {
    if |comps| > 1 {
      JoinedStart(comps[..|comps| - 1]);
    }
  }

  lemma RootIs(root: string, comps: seq<string>)
    requires root in {"/", "//"} && AllNames(comps)
    ensures Root(Render(root, comps)) == root && Render(root, comps)[0] == '/'
  {
    JoinedStart(comps);
    assert Joined([]) == [];
  }

  /** A canonical path is where `cd` to it leads, from anywhere. */
  lemma CanonicalStays(present: set<string>, curdir: string, path: string)
    requires Canonical(path)
    ensures Moved(present, curdir, path) == Named(path)
  {
    hide Components, Follow;
    var root, comps :| root in {"/", "//"} && AllNames(comps) && path == Render(root, comps);
    ComponentsRooted(root, Joined(comps));
    ComponentsJoined(comps);
    FollowOnly(present, root, |root|, [], comps);
    assert [] + comps == comps;
    RootIs(root, comps);
  }

  /** What `docd` passes to `chdir`: a name relative to the current directory when that is a prefix. */
  function Shortened(curdir: string, dir: string): string {
    if curdir == [] || curdir[0] != '/' then dir
    else
      var n := if |curdir| == 1 then 0 else |curdir|;
      if n <= |dir| && dir[..n] == curdir[..n] && At(dir, n) == '/' && At(dir, n + 1) != '\0' then dir[n + 1..] else dir
  }

  predicate NoDouble(s: string) {
    (s != [] ==> s[|s| - 1] != '/') && forall i :: 0 <= i < |s| - 1 && s[i] == '/' ==> s[i + 1] != '/'
  }

  lemma {:induction false} JoinedNoDouble(comps: seq<string>)
    requires AllNames(comps)
    ensures NoDouble(Joined(comps))
    decreases |comps|
  {
    if comps != [] {
      var k := |comps| - 1;
      assert IsName(comps[k]);
      if k > 0 {
        JoinedNoDouble(comps[..k]);
      }
    }
  }

  lemma NamesOf(dir: string) returns (comps: seq<string>)
    requires Canonical(dir)
    ensures AllNames(comps) && dir == Render(Root(dir), comps) && Components(dir) == comps && IsRoot(Root(dir))
    ensures dir != [] && dir[0] == '/' && (Root(dir) == "//" <==> At(dir, 1) == '/')
  {
    var root;
    root, comps :| root in {"/", "//"} && AllNames(comps) && dir == Render(root, comps);
    RootIs(root, comps);
    JoinedStart(comps);
    ComponentsRooted(root, Joined(comps));
    ComponentsJoined(comps);
  }

  /**
   * From the current directory the shorter name leads to the same place, unless it was made by cutting one of two
   * slashes off.
   */
  lemma ShortenedLeads(present: set<string>, curdir: string, dir: string)
    requires Canonical(dir) && Canonical(curdir)
    ensures Moved(present, curdir, Shortened(curdir, dir)) == Named(dir) <==> !(curdir == "/" && Root(dir) == "//")
  {
    hide Components, Moved, Canonical, Follow, Shortened, Root;
    var comps := NamesOf(dir);
    CanonicalStays(present, curdir, dir);
    if curdir == "/" && Root(dir) == "//" {
      CutLeads(present, curdir, dir, comps);
    } else if Shortened(curdir, dir) != dir {
      ShortLeads(present, curdir, dir, comps);
    }
  }

  lemma ShortLeads(present: set<string>, curdir: string, dir: string, comps: seq<string>)
    requires Canonical(curdir) && AllNames(comps) && IsRoot(Root(dir)) && dir == Render(Root(dir), comps)
    requires Components(dir) == comps && (Root(dir) == "//" <==> At(dir, 1) == '/')
    requires Shortened(curdir, dir) != dir && !(curdir == "/" && Root(dir) == "//")
    ensures Moved(present, curdir, Shortened(curdir, dir)) == Named(dir)
  {
    hide Components, Moved, Canonical, Follow, Render;
    var short := Shortened(curdir, dir);
    var at := NamesOf(curdir);
    var n := if |curdir| == 1 then 0 else |curdir|;
    assert dir == dir[..n] + "/" + short;
    ComponentsPlus(dir[..n], short);
    SlashAlone(Root(dir), comps, n);
    ComponentsOne([]);
    ComponentsSlash([]);
    assert n == 0 ==> curdir == "/" + [] && dir[..n] == [];
    assert n > 0 ==> dir[..n] == curdir && dir[1] == curdir[1];
    assert Root(curdir) == Root(dir);
    hide Root;
    FollowShort(present, curdir, short, comps);
  }

  /** With the first of two slashes cut off, a name has one root only. */
  lemma CutLeads(present: set<string>, curdir: string, dir: string, comps: seq<string>)
    requires curdir == "/" && AllNames(comps) && dir == Render("//", comps)
    ensures Moved(present, curdir, Shortened(curdir, dir)) == Named(Render("/", comps)) != Named(dir)
  {
    hide Components, Moved, Follow;
    var short := Render("/", comps);
    assert dir[1..] == short && Shortened(curdir, dir) == short;
    assert Canonical(short);
    CanonicalStays(present, curdir, short);
  }

  /** From `/`, the directory `//x` is left for `/x`. */
  lemma ShortenedMisleads()
    ensures Canonical("//x") && Canonical("/") && Shortened("/", "//x") == "/x"
    ensures forall present :: Moved(present, "/", Shortened("/", "//x")) == Named("/x")
  {
    NoNames();
    assert Joined(["x"]) == "x" && Render("//", ["x"]) == "//x" && Render("/", ["x"]) == "/x";
    assert IsName("x") && AllNames(["x"]);
    forall present
      ensures Moved(present, "/", Shortened("/", "//x")) == Named("/x")
    {
      CutLeads(present, "/", "//x", ["x"]);
    }
  }

  /** Behind a slash of a canonical path, other than the first of two, comes a name, or nothing. */
  lemma SlashAlone(root: string, comps: seq<string>, n: nat)
    requires AllNames(comps) && IsRoot(root) && (root == "//" ==> n > 0)
    ensures var dir := Render(root, comps); n < |dir| && dir[n] == '/' && n + 1 < |dir| ==> dir[n + 1] != '/'
  {
    JoinedNoDouble(comps);
    JoinedStart(comps);
  }

  lemma FollowShort(present: set<string>, curdir: string, short: string, comps: seq<string>)
    requires AllNames(comps) && Components(curdir) + Components(short) == comps && curdir != []
    requires short == [] || short[0] != '/'
    ensures Moved(present, curdir, short) == Named(Render(Root(curdir), comps))
  {
    hide Components, Follow;
    forall i | 0 <= i < |Components(short)|
      ensures IsName(Components(short)[i])
    {
      assert Components(short)[i] == comps[|Components(curdir)| + i];
    }
    FollowOnly(present, Root(curdir), 1, Components(curdir), Components(short));
  }

  // ---------- Two slashes ----------

  /** The operand `dir` as a name that starts from the root. */
  function Under(curdir: string, dir: string): string
    requires curdir != []
  {
    if curdir[|curdir| - 1] == '/' then curdir + dir else curdir + "/" + dir
  }

  /** Whether `..` is used where at most `depth` names are left of the current directory, and that is one or none. */
  predicate ClimbsOut(depth: nat, comps: seq<string>)
    decreases |comps|
  {
    comps != [] &&
    if comps[0] == "." then ClimbsOut(depth, comps[1..])
    else if comps[0] == ".." then depth <= 1 || ClimbsOut(depth - 1, comps[1..])
    else ClimbsOut(depth + 1, comps[1..])
  }

  /** Following a path with one slash at risk, next to one with none. */
  lemma {:induction false} FollowAtRisk(present: set<string>, at: seq<string>, comps: seq<string>)
    requires AllNames(at) && forall i :: 0 <= i < |comps| ==> comps[i] != [] && '/' !in comps[i]
    ensures var r, safe := Follow(present, "//", 1, at, comps), Follow(present, "//", 2, at, comps);
            if ClimbsOut(|at|, comps) then r.Some? ==> r.value.root == "/" else r == safe
    decreases |comps|
  {
    if comps != [] {
      if comps[0] == "." {
        FollowAtRisk(present, at, comps[1..]);
      } else if comps[0] == ".." {
        if |at| <= 1 {
          FollowNames(present, "/", 1, [], comps[1..]);
        } else {
          FollowAtRisk(present, Parent(at), comps[1..]);
        }
      } else {
        FollowAtRisk(present, at + [comps[0]], comps[1..]);
      }
    }
  }

  lemma UnderIs(curdir: string, dir: string)
    requires Canonical(curdir) && (dir == [] || dir[0] != '/')
    ensures var full := Under(curdir, dir);
            && full != [] && full[0] == '/' && Root(full) == Root(curdir)
            && Components(full) == Components(curdir) + Components(dir)
  {
    hide Components, Canonical;
    var at := NamesOf(curdir);
    JoinedNoDouble(at);
    JoinedStart(at);
    NoNames();
    var k := |curdir| - 1;
    if at == [] {
      ComponentsRooted(Root(curdir), dir);
      assert curdir == Root(curdir) && [] + Components(dir) == Components(dir);
    } else {
      assert curdir[k] == Joined(at)[|Joined(at)| - 1];
      ComponentsPlus(curdir, dir);
      var full := Under(curdir, dir);
      assert full[0] == curdir[0] && full[1] == curdir[1] && (|curdir| > 2 ==> full[2] == curdir[2]);
    }
  }

  /**
   * A relative operand leads where the name from the root leads, exactly when no slash is lost on the way: the
   * current directory begins with one, or `..` never leaves the last of its names; or both are errors.
   */
  lemma RelativeLeads(present: set<string>, curdir: string, dir: string)
    requires Canonical(curdir) && (dir == [] || dir[0] != '/')
    ensures var r, full := Moved(present, curdir, dir), Moved(present, curdir, Under(curdir, dir));
            r == full <==>
              || Root(curdir) == "/" || !ClimbsOut(|Components(curdir)|, Components(dir)) || (r.Missing? && full.Missing?)
  {
    hide Components, Canonical, Follow, ClimbsOut;
    var at := NamesOf(curdir);
    var root := Root(curdir);
    var comps := Components(dir);
    UnderIs(curdir, dir);
    ComponentsAre(dir);
    FollowPlain(present, root, |root|, [], at, comps);
    assert [] + at == at;
    var r, safe := Follow(present, root, 1, at, comps), Follow(present, root, |root|, at, comps);
    FollowNames(present, root, 1, at, comps);
    FollowNames(present, root, |root|, at, comps);
    if root == "//" {
      FollowAtRisk(present, at, comps);
      if r.Some? && safe.Some? {
        RootIs(r.value.root, r.value.at);
        RootIs(safe.value.root, safe.value.at);
      }
    }
  }

  lemma TwoSlashesA()
    ensures Canonical("//a") && Root("//a") == "//" && Components("//a") == ["a"] && Components("..") == [".."]
    ensures Render("//", ["a"]) == "//a" && AllNames(["a"])
  {
    assert Joined(["a"]) == "a" && Render("//", ["a"]) == "//a";
    assert IsName("a") && AllNames(["a"]);
    ComponentsOne("a");
    ComponentsOne("..");
    ComponentsRooted("//", "a");
    assert "//" + "a" == "//a";
  }

  /** `..` from `//a` is `/`, where `//a/..` is `//`. */
  lemma SlashIsLost(present: set<string>)
    requires "//a/" in present
    ensures Canonical("//a") && Moved(present, "//a", "..") == Named("/")
    ensures Moved(present, "//a", "//a/..") == Named("//") && Under("//a", "..") == "//a/.."
  {
    hide Components, Canonical, Root, Render, AllNames;
    NoNames();
    TwoSlashesA();
    UnderIs("//a", "..");
    assert "//a" + "/" + ".." == "//a/.." && "//a" + "/" == "//a/";
    FollowPlain(present, "//", 2, [], ["a"], [".."]);
    assert [] + ["a"] == ["a"] && [".."][1..] == [];
    assert Follow(present, "//", 1, ["a"], [".."]) == Some(Spot("/", []));
    assert Follow(present, "//", 2, ["a"], [".."]) == Some(Spot("//", []));
  }

  // ---------- The loop ----------

  /** A path without its last component, and that component. */
  lemma LastName(root: string, at: seq<string>)
    requires IsRoot(root) && AllNames(at) && at != []
    ensures var sep := if |at| == 1 then [] else "/";
            Render(root, at) == Render(root, Parent(at)) + sep + at[|at| - 1]
  {
    var c := at[|at| - 1];
    if |at| > 1 {
      var j := Joined(Parent(at));
      assert root + (j + "/" + c) == root + j + "/" + c;
    } else {
      assert Joined([]) == [] && root + [] == root && root + [] + c == root + c;
    }
  }

  lemma NextName(root: string, at: seq<string>, c: string)
    requires IsRoot(root) && AllNames(at) && IsName(c)
    ensures var path := Render(root, at);
            && path != [] && AllNames(at + [c])
            && Render(root, at + [c]) == (if path[|path| - 1] == '/' then path else path + "/") + c
  {
    LastName(root, at + [c]);
    assert Parent(at + [c]) == at;
    JoinedNoDouble(at);
    JoinedStart(at);
    var path := Render(root, at);
    if at == [] {
      assert path == root + [] == root && path + [] == path;
    } else {
      assert path[|path| - 1] == Joined(at)[|Joined(at)| - 1];
    }
  }

  /** A path as what is in front of its last component, and this. */
  lemma LastPart(root: string, at: seq<string>) returns (base: string, c: string)
    requires IsRoot(root) && AllNames(at)
    ensures Render(root, at) == base + c && '/' !in c && |base| >= |root| && base[|base| - 1] == '/'
    ensures |at| <= 1 ==> base == root && Render(root, Parent(at)) == root
    ensures |at| > 1 ==> base == Render(root, Parent(at)) + "/" && |base| > |root|
    ensures Render("/", []) == "/"
  {
    NoNames();
    c := if at == [] then [] else at[|at| - 1];
    base := if |at| <= 1 then root else Render(root, Parent(at)) + "/";
    assert at != [] ==> IsName(c);
    if at != [] {
      LastName(root, at);
    }
    assert base + [] == base;
  }

  /** The loop of `updatepwd` that takes back a component. */
  method TakeBack(path: string, lim: nat, ghost root: string, ghost at: seq<string>) returns (shorter: string)
    requires IsRoot(root) && AllNames(at) && path == Render(root, at) && 1 <= lim <= |root|
    ensures var up := Up(root, lim, at); shorter == Render(up.root, up.at)
  {
    hide Render, Joined, AllNames;
    shorter := path;
    ghost var base, c := LastPart(root, at);
    ghost var k := |c|;
    assert c[..k] == c;
    while |shorter| > lim
      invariant 0 <= k <= |c| && shorter == base + c[..k] && |base| >= |root|
      decreases |shorter|
    {
      var last := shorter[|shorter| - 1];
      shorter := shorter[..|shorter| - 1];
      if last == '/' {
        assert k == 0;
        break;
      }
      k := k - 1;
    }
  }

  /** One component is read. */
  lemma ReadName(dir: string, p: nat, end: nat)
    requires p <= end <= |dir| && (end < |dir| ==> dir[end] == '/') && '/' !in dir[p..end]
    ensures Components(dir[p..]) == OneName(dir[p..end]) + Components(dir[if end < |dir| then end + 1 else end..])
  {
    hide Components, ToSlash;
    if end < |dir| {
      assert dir[p..] == dir[p..end] + "/" + dir[end + 1..];
      ComponentsFirst(dir[p..end], dir[end + 1..]);
    } else {
      assert dir[p..end] == dir[p..] && dir[end..] == [];
      ComponentsOne(dir[p..]);
      ComponentsOne([]);
    }
  }

  /** Following one component. */
  lemma FollowOne(present: set<string>, root: string, lim: nat, at: seq<string>, c: string, rest: seq<string>)
    ensures var up := Up(root, lim, at);
            Follow(present, root, lim, at, OneName(c) + rest) ==
              if c == [] || c == "." then Follow(present, root, lim, at, rest)
              else if c == ".." then
                if Render(root, at) + "/" !in present then None else Follow(present, up.root, lim, up.at, rest)
              else Follow(present, root, lim, at + [c], rest)
  {
    if c == [] {
      assert OneName(c) + rest == rest;
    } else {
      assert (OneName(c) + rest)[1..] == rest;
    }
  }

  /** The start of `updatepwd`: the root or the current directory, and how much of `dir` has been read. */
  method Begin(curdir: string, dir: string, ghost present: set<string>)
    returns (p: nat, lim: nat, path: string, ghost root: string, ghost at: seq<string>)
    requires (dir != [] && dir[0] == '/') || Canonical(curdir)
    ensures p <= |dir| && IsRoot(root) && 1 <= lim <= |root| && AllNames(at) && path == Render(root, at)
    ensures |path| <= (if dir != [] && dir[0] == '/' then 0 else |curdir|) + p
    ensures Moved(present, curdir, dir) == Rendered(Follow(present, root, lim, at, Components(dir[p..])))
  {
    hide Components, Canonical, Follow, AllNames;
    p, lim, path, root, at := 0, 1, [], "/", [];
    NoNames();
    assert dir[0..] == dir;
    if dir == [] || dir[0] != '/' {
      path := curdir;
      at := NamesOf(curdir);
      root := Root(curdir);
    } else {
      path := ['/'];
      p := 1;
      ComponentsSlash(dir[1..]);
      assert "/" + dir[1..] == dir;
      if At(dir, 1) == '/' && At(dir, 2) != '/' {
        path := path + ['/'];
        p := 2;
        lim := 2;
        root := "//";
        ComponentsSlash(dir[2..]);
        assert "/" + dir[2..] == dir[1..] && path == "//";
      }
    }
  }

  lemma NoNames()
    ensures AllNames([]) && Render("/", []) == "/" && Render("//", []) == "//"
  {
    assert Joined([]) == [] && "/" + [] == "/" && "//" + [] == "//";
  }

  /** The `switch` of `updatepwd`: one component of the path; `used` bytes are in use when most are. */
  method OneStep(present: set<string>, path: string, lim: nat, c: string, ghost root: string, ghost at: seq<string>,
                 ghost rest: seq<string>)
    returns (ok: bool, shorter: string, used: nat, ghost now: Spot)
    requires IsRoot(root) && AllNames(at) && path == Render(root, at) && 1 <= lim <= |root| && '/' !in c
    ensures ok ==> AllNames(now.at) && IsRoot(now.root) && lim <= |now.root| && shorter == Render(now.root, now.at)
    ensures ok ==> |shorter| <= |path| + |c| + 1
    ensures ok && (c == [] || c == "." || c == "..") ==> |shorter| <= |path|
    ensures Follow(present, root, lim, at, OneName(c) + rest) ==
              if ok then Follow(present, now.root, lim, now.at, rest) else None
    ensures used <= |path| + |c|
  {
    hide Render, Follow, AllNames, Joined;
    FollowOne(present, root, lim, at, c, rest);
    ok, shorter, used, now := true, path, 0, Spot(root, at);
    if c == ".." {
      used := |path| + 2;
      if path + "/" !in present {
        ok := false;
        return;
      }
      shorter := TakeBack(path, lim, root, at);
      ShorterUp(root, lim, at);
      now := Up(root, lim, at);
    } else if c != [] && c != "." {
      NextName(root, at, c);
      if path[|path| - 1] != '/' {
        shorter := path + "/";
      }
      shorter := shorter + c;
      now := Spot(root, at + [c]);
    }
  }

  /** `updatepwd`. `most` is the number of bytes in use when most are: no more than were set aside. */
  method UpdatePwd(present: set<string>, curdir: string, dir: string) returns (r: Place, most: nat)
    requires (dir != [] && dir[0] == '/') || curdir == [] || Canonical(curdir)
    ensures r == Moved(present, curdir, dir)
    ensures most <= (if dir != [] && dir[0] == '/' then 0 else |curdir|) + |dir| + 2
  {
    hide Components, Canonical, Follow, AllNames, Render, Root;
    most := 0;
    if (dir == [] || dir[0] != '/') && curdir == [] {
      return Unnamed, 0;
    }
    ghost var base := if dir != [] && dir[0] == '/' then 0 else |curdir|;
    ghost var root, at, now;
    var p: nat, lim, path;
    p, lim, path, root, at := Begin(curdir, dir, present);
    ghost var all := Follow(present, root, lim, at, Components(dir[p..]));
    var more := true;
    while more
      invariant p <= |dir| && 1 <= lim <= |root| && IsRoot(root) && AllNames(at) && path == Render(root, at)
      invariant !more ==> p == |dir|
      invariant |path| <= base + p + if more then 0 else 1
      invariant all == Follow(present, root, lim, at, Components(dir[p..]))
      invariant most <= base + |dir| + 2
      decreases more, |dir| - p
    {
      var end := p + ToSlash(dir[p..]);
      more := end < |dir|;
      var next := if more then end + 1 else end;
      var ok, used;
      ReadName(dir, p, end);
      ok, path, used, now := OneStep(present, path, lim, dir[p..end], root, at, Components(dir[next..]));
      most := if used > most then used else most;
      if !ok {
        return Missing, most;
      }
      root, at, p := now.root, now.at, next;
    }
    ComponentsOne([]);
    assert dir[|dir|..] == [];
    FollowNothing(present, root, lim, at);
    most := if |path| + 1 > most then |path| + 1 else most;
    r := Named(path);
  }

  lemma FollowNothing(present: set<string>, root: string, lim: nat, at: seq<string>)
    ensures Follow(present, root, lim, at, []) == Some(Spot(root, at))
  {
  }

  lemma ShorterUp(root: string, lim: nat, at: seq<string>)
    requires IsRoot(root) && AllNames(at) && 1 <= lim <= |root|
    ensures var up := Up(root, lim, at);
            |Render(up.root, up.at)| <= |Render(root, at)| && AllNames(up.at) && IsRoot(up.root) && lim <= |up.root|
  {
    NoNames();
    if at != [] {
      LastName(root, at);
    }
  }
}
