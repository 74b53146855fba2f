/** Where `cd` leads, one component at a time (the `cd` utility of POSIX.1-2017 XCU). */
module CdLaws {
  import opened Chars
  import opened Cd

  /** The directory `c` in `p`. */
  function In(p: string, c: string): string
    requires p != []
  {
    if p[|p| - 1] == '/' then p + c else p + "/" + c
  }

  /** A directory from its root and the names on the way. */
  function Rooted(two: bool, names: seq<string>): (p: string)
    ensures p != []
  {
    if names == [] then (if two then "//" else "/") else In(Rooted(two, names[..|names| - 1]), names[|names| - 1])
  }

  lemma {:induction false} RootedIs(two: bool, names: seq<string>)
    requires AllNames(names)
    ensures Rooted(two, names) == Render(if two then "//" else "/", names) && Canonical(Rooted(two, names))
    decreases |names|
  {
    var root := if two then "//" else "/";
    if names == [] {
      assert root + [] == root && Joined([]) == [];
    } else {
      RootedIs(two, names[..|names| - 1]);
      NextName(root, names[..|names| - 1], names[|names| - 1]);
      assert names == names[..|names| - 1] + [names[|names| - 1]];
    }
  }

  /** Canonical paths are those made of names in one or two slashes. */
  lemma CanonicalIs(p: string) returns (two: bool, names: seq<string>)
    requires Canonical(p)
    ensures AllNames(names) && p == Rooted(two, names)
  {
    var root, comps :| root in {"/", "//"} && AllNames(comps) && p == Render(root, comps);
    two, names := root == "//", comps;
    RootedIs(two, names);
  }

  lemma Parts(two: bool, names: seq<string>)
    requires AllNames(names)
    ensures var p := Rooted(two, names);
            Root(p) == (if two then "//" else "/") && Components(p) == names && p == Render(Root(p), names)
  {
    hide Components;
    var root := if two then "//" else "/";
    RootedIs(two, names);
    RootIs(root, names);
    ComponentsRooted(root, Joined(names));
    ComponentsJoined(names);
  }

  /** The name of a directory leads into it, and `.` nowhere. */
  lemma NameEnters(present: set<string>, two: bool, names: seq<string>, c: string)
    requires AllNames(names) && IsName(c)
    ensures Moved(present, Rooted(two, names), c) == Named(Rooted(two, names + [c]))
    ensures Moved(present, Rooted(two, names), ".") == Named(Rooted(two, names))
  {
    hide Components, Render, Root;
    Parts(two, names);
    Parts(two, names + [c]);
    RootedRoot(two, names + [c]);
    ComponentsOne(c);
    ComponentsOne(".");
    var root := if two then "//" else "/";
    FollowOnly(present, root, 1, names, [c]);
    assert ["."][1..] == [];
  }

  lemma RootedRoot(two: bool, names: seq<string>)
    requires AllNames(names)
    ensures Root(Rooted(two, names)) == if two then "//" else "/"
  {
    Parts(two, names);
  }

  /** `..` leads to the directory that the last name is in, if that is there; of two slashes one is lost at the top. */
  lemma DotsLeave(present: set<string>, two: bool, names: seq<string>)
    requires AllNames(names)
    ensures var p := Rooted(two, names);
            Moved(present, p, "..") ==
              if p + "/" !in present then Missing
              else if |names| <= 1 then Named("/") else Named(Rooted(two, names[..|names| - 1]))
  {
    hide Components, Root;
    var root := if two then "//" else "/";
    Parts(two, names);
    ComponentsOne("..");
    assert [".."][1..] == [] && Joined([]) == [] && "/" + [] == "/";
    if |names| > 1 {
      RootedIs(two, names[..|names| - 1]);
    }
  }

  /** So entering and leaving again leads back, but for two slashes at the top. */
  lemma ThereAndBack(present: set<string>, two: bool, names: seq<string>, c: string)
    requires AllNames(names) && IsName(c) && (two ==> names != [])
    requires Rooted(two, names + [c]) + "/" in present
    ensures var p := Rooted(two, names);
            Moved(present, p, c).Named? && Moved(present, Moved(present, p, c).path, "..") == Named(p)
  {
    NameEnters(present, two, names, c);
    DotsLeave(present, two, names + [c]);
    assert (names + [c])[..|names|] == names;
  }

  /** Several slashes are one. */
  lemma SlashesAreOne(present: set<string>, curdir: string, a: string, b: string)
    requires a != [] && (a[0] != '/' || |a| > 2)
    ensures Moved(present, curdir, a + "//" + b) == Moved(present, curdir, a + "/" + b)
  {
    hide Components, Follow;
    Assoc(a, "/", "/" + b);
    assert a + "//" + b == a + "/" + ("/" + b);
    ComponentsPlus(a, "/" + b);
    ComponentsPlus(a, b);
    ComponentsSlash(b);
  }

  lemma RelativeIs(present: set<string>, two: bool, names: seq<string>, d: string)
    requires AllNames(names) && (d == [] || d[0] != '/')
    ensures Moved(present, Rooted(two, names), d) ==
              Rendered(Follow(present, if two then "//" else "/", 1, names, Components(d)))
  {
    hide Components, Follow, Root;
    Parts(two, names);
  }

  /** A path is followed one part after the other. */
  lemma StepByStep(present: set<string>, two: bool, names: seq<string>, c: string, rest: string)
    requires AllNames(names) && IsName(c) && (rest == [] || rest[0] != '/')
    ensures Moved(present, Rooted(two, names), c + "/" + rest) == Moved(present, Rooted(two, names + [c]), rest)
  {
    hide Components, Follow, Moved, Rooted;
    RelativeIs(present, two, names, c + "/" + rest);
    RelativeIs(present, two, names + [c], rest);
    ComponentsFirst(c, rest);
    FollowOne(present, if two then "//" else "/", 1, names, c, Components(rest));
  }

  /** `./` in front changes nothing. */
  lemma DotFirst(present: set<string>, two: bool, names: seq<string>, d: string)
    requires AllNames(names) && (d == [] || d[0] != '/')
    ensures Moved(present, Rooted(two, names), "./" + d) == Moved(present, Rooted(two, names), d)
  {
    hide Components, Follow, Moved, Rooted;
    assert "." + "/" + d == "./" + d;
    RelativeIs(present, two, names, "./" + d);
    RelativeIs(present, two, names, d);
    ComponentsFirst(".", d);
    FollowOne(present, if two then "//" else "/", 1, names, ".", Components(d));
  }

  /** An absolute path leads to the same place from everywhere; exactly two slashes at its start are kept. */
  lemma AbsoluteAnywhere(present: set<string>, there: string, here: string, c: string, d: string)
    requires IsName(c)
    ensures Moved(present, there, "/" + d) == Moved(present, here, "/" + d)
    ensures Moved(present, here, "/" + c) == Moved(present, here, "///" + c) == Named("/" + c)
    ensures Moved(present, here, "//" + c) == Named("//" + c)
  {
    hide Components, Root;
    ComponentsOne(c);
    ComponentsRooted("/", c);
    ComponentsRooted("//", c);
    ComponentsSlash("//" + c);
    assert "/" + ("//" + c) == "///" + c;
    Tops(c);
    FollowOnly(present, "/", 1, [], [c]);
    FollowOnly(present, "//", 2, [], [c]);
    assert [] + [c] == [c];
  }

  lemma Tops(c: string)
    requires IsName(c)
    ensures Root("/" + c) == "/" && Root("//" + c) == "//" && Root("///" + c) == "/"
    ensures Render("/", [c]) == "/" + c && Render("//", [c]) == "//" + c
  {
    assert c[0] in c;
    assert ("/" + c)[1] == c[0] && ("//" + c)[2] == c[0];
  }
}
