/**
  A file system as far as the credential registry sees it: directories, files and symbolic links at
  canonical locations, the kernel's path walk, the name resolution of `Path.resolve()`, and single
  atomic changes.
*/
module FileSystem {
  import opened Prelude

  /** The components below the file system root, none of them a link. */
  type Location = seq<string>

  /** `owned`: user and group are the ones the registry demands. */
  datatype Node =
    | Directory(owned: bool, mode: nat)
    | File(owned: bool, mode: nat, content: string)
    | Symlink(absolute: bool, path: seq<string>)

  type Files = map<Location, Node>

  predicate IsDirectory(files: Files, at: Location) {
    at in files && files[at].Directory?
  }

  predicate IsFile(files: Files, at: Location) {
    at in files && files[at].File?
  }

  predicate IsSymlink(files: Files, at: Location) {
    at in files && files[at].Symlink?
  }

  function Parent(at: Location): Location {
    if at == [] then [] else at[..|at| - 1]
  }

  /** The last component. */
  function NameOf(at: Location): string {
    if at == [] then "" else at[|at| - 1]
  }

  /** Strictly below a location. */
  predicate Below(at: Location, l: Location) {
    |at| < |l| && l[..|at|] == at
  }

  /** How many links one walk follows before it gives up. */
  const FOLLOWS: nat := 40

  /** Where a path leads from a directory, every link followed; None if it leads nowhere. */
  function Walk(files: Files, at: Location, path: seq<string>, follows: nat): Option<Location>
    decreases follows, |path|
  {
    if path == [] then Some(at)
    else if !IsDirectory(files, at) then None
    else if path[0] == "." then Walk(files, at, path[1..], follows)
    else if path[0] == ".." then Walk(files, Parent(at), path[1..], follows)
    else
      var next := at + [path[0]];
      if next !in files then None
      else if files[next].Symlink? then
        if follows == 0 then None
        else Walk(files, if files[next].absolute then [] else at, files[next].path + path[1..], follows - 1)
      else Walk(files, next, path[1..], follows)
  }

  /** The missing name at which a walk stops, if that is why it stops. */
  function StopsAt(files: Files, at: Location, path: seq<string>, follows: nat): Option<Location>
    decreases follows, |path|
  {
    if path == [] || !IsDirectory(files, at) then None
    else if path[0] == "." then StopsAt(files, at, path[1..], follows)
    else if path[0] == ".." then StopsAt(files, Parent(at), path[1..], follows)
    else
      var next := at + [path[0]];
      if next !in files then Some(next)
      else if files[next].Symlink? then
        if follows == 0 then None
        else StopsAt(files, if files[next].absolute then [] else at, files[next].path + path[1..], follows - 1)
      else StopsAt(files, next, path[1..], follows)
  }

  /** Nothing was removed or changed. */
  ghost predicate Extends(before: Files, after: Files) {
    forall l :: l in before ==> l in after && after[l] == before[l]
  }

  /** A walk that arrives still arrives, at the same place, when the file system has grown. */
  lemma {:induction false} WalkSurvives(before: Files, after: Files, at: Location, path: seq<string>, follows: nat)
    requires Extends(before, after) && Walk(before, at, path, follows).Some?
    ensures Walk(after, at, path, follows) == Walk(before, at, path, follows)
    decreases follows, |path|
  {
    if path != [] {
      if path[0] == "." {
        WalkSurvives(before, after, at, path[1..], follows);
      } else if path[0] == ".." {
        WalkSurvives(before, after, Parent(at), path[1..], follows);
      } else {
        var node := before[at + [path[0]]];
        if node.Symlink? {
          WalkSurvives(before, after, if node.absolute then [] else at, node.path + path[1..], follows - 1);
        } else {
          WalkSurvives(before, after, at + [path[0]], path[1..], follows);
        }
      }
    }
  }

  /** Growth alone makes a walk arrive only by adding the very name it stopped at. */
  lemma {:induction false} RevivedWalkStoppedAtNewName(before: Files, after: Files, at: Location, path: seq<string>, follows: nat)
    requires Extends(before, after) && at in before && [] in before
    requires forall l {:trigger Parent(l)} :: l in before ==> Parent(l) in before
    requires Walk(before, at, path, follows).None? && Walk(after, at, path, follows).Some?
    ensures var stop := StopsAt(before, at, path, follows); stop.Some? && stop.value !in before && stop.value in after
    decreases follows, |path|
  {
    if path[0] == "." {
      RevivedWalkStoppedAtNewName(before, after, at, path[1..], follows);
    } else if path[0] == ".." {
      RevivedWalkStoppedAtNewName(before, after, Parent(at), path[1..], follows);
    } else if at + [path[0]] in before {
      var node := before[at + [path[0]]];
      if node.Symlink? {
        RevivedWalkStoppedAtNewName(before, after, if node.absolute then [] else at, node.path + path[1..], follows - 1);
      } else {
        RevivedWalkStoppedAtNewName(before, after, at + [path[0]], path[1..], follows);
      }
    }
  }

  // ---- Resolution -------------------------------------------------------------------------------

  datatype Resolution = At(location: Location) | Loop

  function Links(files: Files): set<Location> {
    set l | l in files && files[l].Symlink?
  }

  /**
    `Path.resolve()`: every link is followed, however many there are, and a name that does not exist
    is taken as it stands, `..` after it included. The links in `active` are being followed already.
  */
  function Resolve(files: Files, at: Location, path: seq<string>, active: set<Location>): Resolution
    decreases Links(files) - active, |path|
  {
    if path == [] then At(at)
    else if path[0] == "." then Resolve(files, at, path[1..], active)
    else if path[0] == ".." then Resolve(files, Parent(at), path[1..], active)
    else
      var next := at + [path[0]];
      if !IsSymlink(files, next) then Resolve(files, next, path[1..], active)
      else if next in active then Loop
      else
        var target := Resolve(files, if files[next].absolute then [] else at, files[next].path, active + {next});
        if target.Loop? then Loop else Resolve(files, target.location, path[1..], active)
  }

  /** The names a resolution comes by that do not exist. */
  function Missed(files: Files, at: Location, path: seq<string>, active: set<Location>): set<Location>
    decreases Links(files) - active, |path|
  {
    if path == [] then {}
    else if path[0] == "." then Missed(files, at, path[1..], active)
    else if path[0] == ".." then Missed(files, Parent(at), path[1..], active)
    else
      var next := at + [path[0]];
      if next !in files then {next} + Missed(files, next, path[1..], active)
      else if !files[next].Symlink? then Missed(files, next, path[1..], active)
      else if next in active then {}
      else
        var from := if files[next].absolute then [] else at;
        var target := Resolve(files, from, files[next].path, active + {next});
        Missed(files, from, files[next].path, active + {next})
        + if target.Loop? then {} else Missed(files, target.location, path[1..], active)
  }

  lemma {:induction false} MissedAreMissing(files: Files, at: Location, path: seq<string>, active: set<Location>, l: Location)
    requires l in Missed(files, at, path, active)
    ensures l !in files
    decreases Links(files) - active, |path|
  {
    var next := at + [path[0]];
    if path[0] == "." {
      MissedAreMissing(files, at, path[1..], active, l);
    } else if path[0] == ".." {
      MissedAreMissing(files, Parent(at), path[1..], active, l);
    } else if !IsSymlink(files, next) {
      if l != next || next in files {
        MissedAreMissing(files, next, path[1..], active, l);
      }
    } else {
      var from := if files[next].absolute then [] else at;
      if l in Missed(files, from, files[next].path, active + {next}) {
        MissedAreMissing(files, from, files[next].path, active + {next}, l);
      } else {
        MissedAreMissing(files, Resolve(files, from, files[next].path, active + {next}).location, path[1..], active, l);
      }
    }
  }

  /** Growth alone changes a resolution only by adding a name that it missed. */
  lemma {:induction false} ResolutionSurvives(before: Files, after: Files, at: Location, path: seq<string>, active: set<Location>)
    requires Extends(before, after) && forall l :: l in Missed(before, at, path, active) ==> l !in after
    ensures Resolve(after, at, path, active) == Resolve(before, at, path, active)
    decreases Links(before) - active, |path|
  {
    if path != [] {
      if path[0] == "." {
        ResolutionSurvives(before, after, at, path[1..], active);
      } else if path[0] == ".." {
        ResolutionSurvives(before, after, Parent(at), path[1..], active);
      } else {
        var next := at + [path[0]];
        if !IsSymlink(before, next) {
          ResolutionSurvives(before, after, next, path[1..], active);
        } else if next !in active {
          var from := if before[next].absolute then [] else at;
          ResolutionSurvives(before, after, from, before[next].path, active + {next});
          var target := Resolve(before, from, before[next].path, active + {next});
          if target.At? {
            ResolutionSurvives(before, after, target.location, path[1..], active);
          }
        }
      }
    }
  }

  lemma {:induction false} MoreFollows(files: Files, at: Location, path: seq<string>, f: nat, g: nat)
    requires f <= g && Walk(files, at, path, f).Some?
    ensures Walk(files, at, path, g) == Walk(files, at, path, f)
    decreases f, |path|
  {
    if path != [] {
      if path[0] == "." {
        MoreFollows(files, at, path[1..], f, g);
      } else if path[0] == ".." {
        MoreFollows(files, Parent(at), path[1..], f, g);
      } else {
        var node := files[at + [path[0]]];
        if node.Symlink? {
          MoreFollows(files, if node.absolute then [] else at, node.path + path[1..], f - 1, g - 1);
        } else {
          MoreFollows(files, at + [path[0]], path[1..], f, g);
        }
      }
    }
  }

  /** A walk that arrives has arrived after each part of its path. */
  lemma {:induction false} WalkInParts(files: Files, at: Location, p: seq<string>, q: seq<string>, f: nat)
    requires Walk(files, at, p + q, f).Some?
    ensures Walk(files, at, p, f).Some?
    ensures Walk(files, Walk(files, at, p, f).value, q, f) == Walk(files, at, p + q, f)
    decreases f, |p|
  {
    if p == [] {
      assert p + q == q;
    } else {
      assert (p + q)[1..] == p[1..] + q;
      if p[0] == "." {
        WalkInParts(files, at, p[1..], q, f);
      } else if p[0] == ".." {
        WalkInParts(files, Parent(at), p[1..], q, f);
      } else {
        var node := files[at + [p[0]]];
        if node.Symlink? {
          var from := if node.absolute then [] else at;
          assert node.path + (p[1..] + q) == (node.path + p[1..]) + q;
          WalkInParts(files, from, node.path + p[1..], q, f - 1);
          MoreFollows(files, Walk(files, from, node.path + p[1..], f - 1).value, q, f - 1, f);
        } else {
          WalkInParts(files, at + [p[0]], p[1..], q, f);
        }
      }
    }
  }

  /** The fewest links a walk has to follow. */
  lemma {:induction false} FewestFollows(files: Files, at: Location, path: seq<string>, f: nat) returns (m: nat)
    requires Walk(files, at, path, f).Some?
    ensures m <= f && Walk(files, at, path, m) == Walk(files, at, path, f)
    ensures m > 0 ==> Walk(files, at, path, m - 1).None?
  {
    m := f;
    if f > 0 && Walk(files, at, path, f - 1).Some? {
      MoreFollows(files, at, path, f - 1, f);
      m := FewestFollows(files, at, path, f - 1);
    }
  }

  /** A link that takes more follows than are left. */
  predicate TooFar(files: Files, link: Location, f: nat) {
    link != [] && Walk(files, Parent(link), [NameOf(link)], f).None?
  }

  lemma StillTooFar(files: Files, link: Location, f: nat, g: nat)
    requires f <= g && TooFar(files, link, g)
    ensures TooFar(files, link, f)
  {
    if Walk(files, Parent(link), [NameOf(link)], f).Some? {
      MoreFollows(files, Parent(link), [NameOf(link)], f, g);
    }
  }

  /** Where the kernel's walk arrives, `Path.resolve()` arrives too. */
  lemma {:induction false} ResolutionFollowsWalk(files: Files, at: Location, path: seq<string>, f: nat, active: set<Location>)
    requires Walk(files, at, path, f).Some? && forall link :: link in active ==> TooFar(files, link, f)
    ensures Resolve(files, at, path, active) == At(Walk(files, at, path, f).value)
    decreases f, |path|
  {
    if path != [] {
      if path[0] == "." {
        ResolutionFollowsWalk(files, at, path[1..], f, active);
      } else if path[0] == ".." {
        ResolutionFollowsWalk(files, Parent(at), path[1..], f, active);
      } else if !IsSymlink(files, at + [path[0]]) {
        ResolutionFollowsWalk(files, at + [path[0]], path[1..], f, active);
      } else {
        LinkFollowsWalk(files, at, path[0], path[1..], f, active);
      }
    }
  }

  lemma {:induction false} LinkFollowsWalk(files: Files, at: Location, name: string, rest: seq<string>, f: nat, active: set<Location>)
    requires name != "." && name != ".." && IsSymlink(files, at + [name]) && Walk(files, at, [name] + rest, f).Some?
    requires forall link :: link in active ==> TooFar(files, link, f)
    ensures Resolve(files, at, [name] + rest, active) == At(Walk(files, at, [name] + rest, f).value)
    decreases f, 0
  {
    var next := at + [name];
    var link := files[next];
    var from := if link.absolute then [] else at;
    assert Parent(next) == at && NameOf(next) == name && ([name] + rest)[1..] == rest && link.path + [name][1..] == link.path;
    WalkInParts(files, at, [name], rest, f);
    var m := FewestFollows(files, at, [name], f);
    forall l | l in active + {next} ensures TooFar(files, l, m - 1) {
      if l in active {
        StillTooFar(files, l, m - 1, f);
      }
    }
    ResolutionFollowsWalk(files, from, link.path, m - 1, active + {next});
    WalkInParts(files, from, link.path, rest, f - 1);
    MoreFollows(files, from, link.path, m - 1, f - 1);
    forall l | l in active ensures TooFar(files, l, f - 1) {
      StillTooFar(files, l, f - 1, f);
    }
    ResolutionFollowsWalk(files, Walk(files, from, link.path, f - 1).value, rest, f - 1, active);
  }

  // ---- Well-formed file systems -----------------------------------------------------------------

  predicate IsName(name: string) {
    name != "" && name != "." && name != ".." && '/' !in name && '\0' !in name
  }

  predicate AreNames(path: seq<string>) {
    forall i :: 0 <= i < |path| ==> IsName(path[i])
  }

  /** Parents are directories, and modes fit twelve bits. */
  ghost predicate Shaped(files: Files) {
    && IsDirectory(files, [])
    && (forall l {:trigger Parent(l)} :: l in files && l != [] ==> IsDirectory(files, Parent(l)))
    && (forall l :: l in files && !files[l].Symlink? ==> files[l].mode < 0x1000)
  }

  /** What every file system guarantees, names being names besides. */
  ghost predicate WellFormed(files: Files) {
    Shaped(files) && forall l :: l in files ==> AreNames(l)
  }

  lemma {:induction false} AncestorsAreDirectories(files: Files, l: Location, n: nat)
    requires Shaped(files) && l in files && n < |l|
    ensures IsDirectory(files, l[..n])
    decreases |l|
  {
    assert IsDirectory(files, Parent(l));
    if n < |l| - 1 {
      AncestorsAreDirectories(files, Parent(l), n);
      assert Parent(l)[..n] == l[..n];
    } else {
      assert Parent(l) == l[..n];
    }
  }

  lemma NothingBelowMissing(files: Files, l: Location, m: Location)
    requires Shaped(files) && l !in files && Below(l, m)
    ensures m !in files
  {
    if m in files {
      AncestorsAreDirectories(files, m, |l|);
    }
  }

  lemma WalkPastName(files: Files, at: Location, name: string, rest: seq<string>, follows: nat)
    requires IsDirectory(files, at) && IsName(name) && !IsSymlink(files, at + [name])
    ensures Walk(files, at, [name] + rest, follows) == if at + [name] in files then Walk(files, at + [name], rest, follows) else None
  {
    assert ([name] + rest)[1..] == rest;
  }

  /** A walk goes down the names of an existing location and on from there. */
  lemma {:induction false} WalkDownThen(files: Files, at: Location, path: seq<string>, n: nat, follows: nat)
    requires WellFormed(files) && n <= |path| && at + path[..n] in files && !files[at + path[..n]].Symlink?
    ensures Walk(files, at, path, follows) == Walk(files, at + path[..n], path[n..], follows)
    decreases n
  {
    if n == 0 {
      assert at + path[..0] == at && path[0..] == path;
    } else {
      OneFurther(at, path, n);
      WalkDownThen(files, at, path, n - 1, follows);
      WalkPastName(files, at + path[..n - 1], path[n - 1], path[n..], follows);
    }
  }

  lemma OneFurther(at: Location, path: seq<string>, n: nat)
    requires 0 < n <= |path|
    ensures at + path[..n] == at + path[..n - 1] + [path[n - 1]] && Parent(at + path[..n]) == at + path[..n - 1]
    ensures path[n - 1..] == [path[n - 1]] + path[n..] && (at + path[..n])[|at + path[..n]| - 1] == path[n - 1]
  {
  }

  /** A location that exists and is no link is reached by its own name. */
  lemma WalkDown(files: Files, at: Location, path: seq<string>, follows: nat)
    requires WellFormed(files) && at + path in files && !files[at + path].Symlink?
    ensures Walk(files, at, path, follows) == Some(at + path)
  {
    assert path[..|path|] == path && path[|path|..] == [];
    WalkDownThen(files, at, path, |path|, follows);
  }

  lemma WalkThroughLink(files: Files, at: Location, name: string, follows: nat)
    requires IsDirectory(files, at) && IsName(name) && IsSymlink(files, at + [name]) && follows > 0
    ensures var link := files[at + [name]];
            Walk(files, at, [name], follows) == Walk(files, if link.absolute then [] else at, link.path, follows - 1)
  {
    var link := files[at + [name]];
    assert link.path + [name][1..] == link.path;
  }

  lemma ResolvePastName(files: Files, at: Location, name: string, rest: seq<string>, active: set<Location>)
    requires IsName(name) && !IsSymlink(files, at + [name])
    ensures Resolve(files, at, [name] + rest, active) == Resolve(files, at + [name], rest, active)
  {
    assert ([name] + rest)[1..] == rest;
  }

  /** So does a resolution. */
  lemma {:induction false} ResolveDownThen(files: Files, at: Location, path: seq<string>, n: nat, active: set<Location>)
    requires WellFormed(files) && n <= |path| && at + path[..n] in files && !files[at + path[..n]].Symlink?
    ensures Resolve(files, at, path, active) == Resolve(files, at + path[..n], path[n..], active)
    decreases n
  {
    if n == 0 {
      assert at + path[..0] == at && path[0..] == path;
    } else {
      OneFurther(at, path, n);
      ResolveDownThen(files, at, path, n - 1, active);
      ResolvePastName(files, at + path[..n - 1], path[n - 1], path[n..], active);
    }
  }

  lemma ResolveDown(files: Files, at: Location, path: seq<string>, active: set<Location>)
    requires WellFormed(files) && at + path in files && !files[at + path].Symlink?
    ensures Resolve(files, at, path, active) == At(at + path)
  {
    assert path[..|path|] == path && path[|path|..] == [];
    ResolveDownThen(files, at, path, |path|, active);
  }

  lemma ResolveThroughLink(files: Files, at: Location, name: string, active: set<Location>)
    requires IsName(name) && IsSymlink(files, at + [name]) && at + [name] !in active
    ensures var link := files[at + [name]];
            Resolve(files, at, [name], active) == Resolve(files, if link.absolute then [] else at, link.path, active + {at + [name]})
  {
    assert [name][1..] == [];
  }

  lemma {:induction false} WalkArrivesSomewhere(files: Files, at: Location, path: seq<string>, follows: nat)
    requires WellFormed(files) && at in files && !files[at].Symlink? && Walk(files, at, path, follows).Some?
    ensures var l := Walk(files, at, path, follows).value; l in files && !files[l].Symlink?
    decreases follows, |path|
  {
    if path != [] {
      if path[0] == "." {
        WalkArrivesSomewhere(files, at, path[1..], follows);
      } else if path[0] == ".." {
        WalkArrivesSomewhere(files, Parent(at), path[1..], follows);
      } else {
        var node := files[at + [path[0]]];
        if node.Symlink? {
          WalkArrivesSomewhere(files, if node.absolute then [] else at, node.path + path[1..], follows - 1);
        } else {
          WalkArrivesSomewhere(files, at + [path[0]], path[1..], follows);
        }
      }
    }
  }

  // ---- Changes ----------------------------------------------------------------------------------

  /** One atomic change: a new name, or a name moved over another. */
  datatype Change = Add(at: Location, node: Node) | Move(from: Location, to: Location)

  function Perform(files: Files, change: Change): Files {
    match change
    case Add(at, node) => files[at := node]
    case Move(from, to) => if from in files then (files - {from})[to := files[from]] else files
  }

  lemma AddKeepsWellFormed(files: Files, at: Location, node: Node)
    requires WellFormed(files) && at != [] && IsDirectory(files, Parent(at)) && IsName(at[|at| - 1])
    requires at in files ==> !files[at].Directory?
    requires !node.Symlink? ==> node.mode < 0x1000
    ensures WellFormed(files[at := node])
  {
    assert AreNames(Parent(at));
    forall l | l in files[at := node] ensures AreNames(l) {
      assert l == at || l in files;
    }
  }
}
