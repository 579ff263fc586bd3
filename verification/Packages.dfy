/**
  Problem packages of crates/contracts/src/authoring.rs and the path rule of
  crates/contracts/src/foundation.rs. Paths are the bytes of UTF-8 strings; other text is characters.
*/
module Packages {
  import opened Prelude
  import opened Text
  import FileSystem

  // ---- Paths ------------------------------------------------------------------------------------

  /** `validate_relative_path` */
  predicate ValidRelativePath(path: string) {
    && path != "" && |path| <= 1_024
    && path[0] != '/' && path[0] != '\\'
    && '\\' !in path && '\0' !in path && '*' !in path && '?' !in path && '[' !in path && '{' !in path
    && (forall i :: 0 <= i < |Split(path, '/')| ==>
          Split(path, '/')[i] != "" && Split(path, '/')[i] != "." && Split(path, '/')[i] != "..")
    && !(|path| >= 2 && path[1] == ':')
  }

  /** Where a path leads below its root, step by step; None when it leaves the root. */
  function Resolve(location: seq<string>, parts: seq<string>): Option<seq<string>>
    decreases |parts|
  {
    if parts == [] then Some(location)
    else if parts[0] == "" || parts[0] == "." then Resolve(location, parts[1..])
    else if parts[0] == ".." then
      if location == [] then None else Resolve(location[..|location| - 1], parts[1..])
    else Resolve(location + [parts[0]], parts[1..])
  }

  /** A POSIX reading of the whole path: a leading slash starts outside the root. */
  function Location(path: string): Option<seq<string>> {
    if path != [] && path[0] == '/' then None else Resolve([], Split(path, '/'))
  }

  lemma {:induction false} NormalPartsResolve(location: seq<string>, parts: seq<string>)
    requires forall i :: 0 <= i < |parts| ==> parts[i] != "" && parts[i] != "." && parts[i] != ".."
    ensures Resolve(location, parts) == Some(location + parts)
    decreases |parts|
  {
    if parts == [] {
      assert location + parts == location;
    } else {
      NormalPartsResolve(location + [parts[0]], parts[1..]);
      assert location + [parts[0]] + parts[1..] == location + parts;
    }
  }

  /** An accepted path stays inside its root, names its location in normal form, and spells it uniquely. */
  lemma AcceptedPathIsNormal(path: string)
    requires ValidRelativePath(path)
    ensures Location(path) == Some(Split(path, '/'))
    ensures Join(Location(path).value, '/') == path
  {
    NormalPartsResolve([], Split(path, '/'));
    assert [] + Split(path, '/') == Split(path, '/');
    JoinInvertsSplit(path, '/');
  }

  /** Two accepted paths reach one location only if they are the same bytes. */
  lemma LocationInjective(a: string, b: string)
    requires ValidRelativePath(a) && ValidRelativePath(b)
    ensures Location(a) == Location(b) <==> a == b
  {
    AcceptedPathIsNormal(a);
    AcceptedPathIsNormal(b);
  }

  // ---- Packages ---------------------------------------------------------------------------------

  datatype ArtifactRef = ArtifactRef(artifactId: string, storeBinding: string, objectVersion: string, sizeBytes: nat, mediaType: string)

  datatype PackageFile = PackageFile(path: string, object_: ArtifactRef)

  datatype AuthoringError =
    | Empty
    | UnsafePath(path: string)
    | DuplicatePath(path: string)
    | NotSorted
    | InvalidArtifactReference

  /** `validate_artifact_ref` */
  predicate ValidArtifact(r: ArtifactRef) {
    !IsBlank(r.storeBinding) && !IsBlank(r.objectVersion) && !IsBlank(r.mediaType) && r.sizeBytes != 0
  }

  /** Paths strictly increase over the whole list, not only between neighbours. */
  predicate StrictlyIncreasing(files: seq<PackageFile>) {
    forall i, j :: 0 <= i < j < |files| ==> StringLess(files[i].path, files[j].path)
  }

  predicate Acceptable(files: seq<PackageFile>) {
    && (forall i :: 0 <= i < |files| ==> ValidRelativePath(files[i].path) && ValidArtifact(files[i].object_))
    && StrictlyIncreasing(files)
  }

  /** The error reported for the first file that spoils an acceptable prefix. */
  predicate Reports(files: seq<PackageFile>, k: nat, e: AuthoringError)
    requires k < |files|
  {
    var path := files[k].path;
    if !ValidRelativePath(path) then e == UnsafePath(path)
    else if exists i :: 0 <= i < k && files[i].path == path then e == DuplicatePath(path)
    else if exists i :: 0 <= i < k && StringLess(path, files[i].path) then e == NotSorted
    else e == InvalidArtifactReference && !ValidArtifact(files[k].object_)
  }

  lemma NextIsGreatest(files: seq<PackageFile>, k: nat)
    requires 0 < k < |files| && StrictlyIncreasing(files[..k])
    ensures StringLess(files[k - 1].path, files[k].path) ==> StrictlyIncreasing(files[..k + 1])
    ensures StringLess(files[k - 1].path, files[k].path) ==>
              forall i :: 0 <= i < k ==> files[i].path != files[k].path && !StringLess(files[k].path, files[i].path)
  {
    if StringLess(files[k - 1].path, files[k].path) {
      forall i | 0 <= i < k
        ensures StringLess(files[i].path, files[k].path) && files[i].path != files[k].path && !StringLess(files[k].path, files[i].path)
      {
        if i < k - 1 {
          assert files[..k][i] == files[i] && files[..k][k - 1] == files[k - 1];
          StringLessTransitive(files[i].path, files[k - 1].path, files[k].path);
        }
        StringLessTotal(files[i].path, files[k].path);
        StringLessTotal(files[k].path, files[k].path);
      }
      var longer := files[..k + 1];
      forall i, j | 0 <= i < j < k + 1 ensures StringLess(longer[i].path, longer[j].path) {
        if j < k {
          assert files[..k][i] == files[i] && files[..k][j] == files[j];
        }
      }
    }
  }

  /**
    `ProblemPackage::validate`: one pass comparing neighbours only, which accepts exactly the
    globally ordered packages and otherwise reports the first spoiled file.
  */
  method Validate(files: seq<PackageFile>) returns (r: Result<(), AuthoringError>)
    ensures r.Ok? <==> files != [] && Acceptable(files)
    ensures r.Err? && files == [] ==> r.error == Empty
    ensures r.Err? && files != [] ==> exists k :: 0 <= k < |files| && Acceptable(files[..k]) && Reports(files, k, r.error)
  {
    if files == [] {
      return Err(Empty);
    }
    var paths: set<string> := {};
    var previous: Option<string> := None;
    for k := 0 to |files|
      invariant Acceptable(files[..k])
      invariant paths == set i | 0 <= i < k :: files[i].path
      invariant previous == if k == 0 then None else Some(files[k - 1].path)
    {
      var file := files[k];
      if !ValidRelativePath(file.path) {
        return Err(UnsafePath(file.path));
      }
      if file.path in paths {
        ghost var i :| 0 <= i < k && files[i].path == file.path;
        StringLessTotal(files[i].path, file.path);
        return Err(DuplicatePath(file.path));
      }
      paths := paths + {file.path};
      if previous.Some? && !StringLess(previous.value, file.path) {
        StringLessTotal(previous.value, file.path);
        return Err(NotSorted);
      }
      previous := Some(file.path);
      if k > 0 {
        NextIsGreatest(files, k);
      }
      if !ValidArtifact(file.object_) {
        return Err(InvalidArtifactReference);
      }
      assert files[..k + 1] == files[..k] + [file];
    }
    assert files[..|files|] == files;
    return Ok(());
  }

  // ---- Canonical form ---------------------------------------------------------------------------

  /** A package as a list filed under one-component paths. */
  function AsFiled(files: seq<PackageFile>): seq<Filed<ArtifactRef>> {
    seq(|files|, i requires 0 <= i < |files| => Filed([files[i].path], files[i].object_))
  }

  lemma FiledMembers(a: seq<PackageFile>, b: seq<PackageFile>, x: Filed<ArtifactRef>)
    requires (forall f :: f in a ==> f in b) && x in AsFiled(a)
    ensures x in AsFiled(b)
  {
    var i :| 0 <= i < |a| && AsFiled(a)[i] == x;
    assert a[i] in b;
    var j :| 0 <= j < |b| && b[j] == a[i];
    assert AsFiled(b)[j] == x;
  }

  /** Accepted packages with the same files are the same list. */
  lemma AcceptedIsCanonical(a: seq<PackageFile>, b: seq<PackageFile>)
    requires StrictlyIncreasing(a) && StrictlyIncreasing(b)
    requires forall f :: f in a <==> f in b
    ensures a == b
  {
    forall x ensures x in AsFiled(a) <==> x in AsFiled(b) {
      if x in AsFiled(a) {
        FiledMembers(a, b, x);
      }
      if x in AsFiled(b) {
        FiledMembers(b, a, x);
      }
    }
    SortedUnique(AsFiled(a), AsFiled(b));
    forall i | 0 <= i < |a| ensures a[i] == b[i] {
      assert AsFiled(a)[i] == AsFiled(b)[i];
    }
  }

  /** No two entries of an accepted package share a location, and none lies outside the root. */
  lemma AcceptedLocationsAreDistinct(files: seq<PackageFile>, i: nat, j: nat)
    requires Acceptable(files) && i < j < |files|
    ensures Location(files[i].path).Some? && Location(files[j].path).Some? && Location(files[i].path) != Location(files[j].path)
  {
    AcceptedPathIsNormal(files[i].path);
    AcceptedPathIsNormal(files[j].path);
    StringLessTotal(files[i].path, files[i].path);
  }

  // ---- Layout -----------------------------------------------------------------------------------

  function Parts(file: PackageFile): seq<string> {
    Split(file.path, '/')
  }

  /** A file tree that holds every file of a package at its location. */
  ghost predicate LaysOut(tree: FileSystem.Files, files: seq<PackageFile>) {
    FileSystem.WellFormed(tree) && forall i :: 0 <= i < |files| ==> FileSystem.IsFile(tree, Parts(files[i]))
  }

  /** No file's location lies on the way to another's. */
  predicate NoneEncloses(files: seq<PackageFile>) {
    forall i, j :: 0 <= i < |files| && 0 <= j < |files| ==> !FileSystem.Below(Parts(files[i]), Parts(files[j]))
  }

  predicate IsPlace(files: seq<PackageFile>, l: seq<string>) {
    exists i :: 0 <= i < |files| && Parts(files[i]) == l
  }

  function Places(files: seq<PackageFile>): set<seq<string>> {
    {[]} + set i, k | 0 <= i < |files| && 0 <= k <= |Parts(files[i])| :: Parts(files[i])[..k]
  }

  /** The tree of the files and the directories above them. */
  function TreeOf(files: seq<PackageFile>): FileSystem.Files {
    map l | l in Places(files) :: if IsPlace(files, l) then FileSystem.File(true, 0, "") else FileSystem.Directory(true, 0)
  }

  lemma PlaceForm(files: seq<PackageFile>, l: seq<string>) returns (i: nat)
    requires l in Places(files) && l != []
    ensures i < |files| && |l| <= |Parts(files[i])| && l == Parts(files[i])[..|l|]
  {
    var n, k :| 0 <= n < |files| && 0 <= k <= |Parts(files[n])| && Parts(files[n])[..k] == l;
    i := n;
  }

  lemma PartsAreNames(path: string)
    requires ValidRelativePath(path)
    ensures FileSystem.AreNames(Split(path, '/'))
  {
    var parts := Split(path, '/');
    JoinInvertsSplit(path, '/');
    forall i | 0 <= i < |parts| ensures FileSystem.IsName(parts[i]) {
      PartWithin(parts, i, '\0');
    }
  }

  /** What occurs in a part occurs in the whole. */
  lemma {:induction false} PartWithin(parts: seq<string>, i: nat, c: char)
    requires i < |parts|
    ensures c in parts[i] ==> c in Join(parts, '/')
    decreases |parts|
  {
    if |parts| > 1 && i > 0 {
      PartWithin(parts[1..], i - 1, c);
    }
  }

  lemma TreeHasParents(files: seq<PackageFile>, l: seq<string>)
    requires NoneEncloses(files) && l in Places(files) && l != []
    ensures FileSystem.IsDirectory(TreeOf(files), FileSystem.Parent(l))
  {
    var i := PlaceForm(files, l);
    var parent, parts := FileSystem.Parent(l), Parts(files[i]);
    assert parent == parts[..|l| - 1];
    assert parent in Places(files);
    assert FileSystem.Below(parent, parts);
  }

  lemma TreeNames(files: seq<PackageFile>, l: seq<string>)
    requires l in Places(files) && forall i :: 0 <= i < |files| ==> ValidRelativePath(files[i].path)
    ensures FileSystem.AreNames(l)
  {
    if l != [] {
      var i := PlaceForm(files, l);
      PartsAreNames(files[i].path);
      assert forall k :: 0 <= k < |l| ==> l[k] == Parts(files[i])[k];
    }
  }

  lemma TreeHoldsFile(files: seq<PackageFile>, i: nat)
    requires i < |files|
    ensures FileSystem.IsFile(TreeOf(files), Parts(files[i]))
  {
    var parts := Parts(files[i]);
    assert parts == parts[..|parts|];
    assert parts in Places(files) && IsPlace(files, parts);
  }

  lemma TreeIsShaped(files: seq<PackageFile>)
    requires NoneEncloses(files)
    ensures FileSystem.Shaped(TreeOf(files))
  {
    var tree := TreeOf(files);
    assert [] in tree && !IsPlace(files, []);
    forall l | l in tree && l != [] ensures FileSystem.IsDirectory(tree, FileSystem.Parent(l)) {
      TreeHasParents(files, l);
    }
  }

  lemma TreeLaysOut(files: seq<PackageFile>)
    requires NoneEncloses(files) && forall i :: 0 <= i < |files| ==> ValidRelativePath(files[i].path)
    ensures LaysOut(TreeOf(files), files)
  {
    TreeIsShaped(files);
    forall l | l in TreeOf(files) ensures FileSystem.AreNames(l) {
      TreeNames(files, l);
    }
    forall i | 0 <= i < |files| ensures FileSystem.IsFile(TreeOf(files), Parts(files[i])) {
      TreeHoldsFile(files, i);
    }
  }

  /** An accepted package can be laid out as files exactly when no path is a component prefix of another. */
  lemma LayoutExactly(files: seq<PackageFile>)
    requires Acceptable(files)
    ensures (exists tree :: LaysOut(tree, files)) <==> NoneEncloses(files)
  {
    if tree :| LaysOut(tree, files) {
      forall i, j | 0 <= i < |files| && 0 <= j < |files| ensures !FileSystem.Below(Parts(files[i]), Parts(files[j])) {
        if FileSystem.Below(Parts(files[i]), Parts(files[j])) {
          FileSystem.AncestorsAreDirectories(tree, Parts(files[j]), |Parts(files[i])|);
        }
      }
    }
    if NoneEncloses(files) {
      TreeLaysOut(files);
    }
  }

  /** Comparing neighbours does not see it: a file and a file below it are accepted, with another between them. */
  lemma AcceptedWithoutLayout(object_: ArtifactRef)
    requires ValidArtifact(object_)
    ensures var files := [PackageFile("a", object_), PackageFile("a-b", object_), PackageFile("a/b", object_)];
            && Acceptable(files) && !(exists tree :: LaysOut(tree, files))
            && NoneEncloses(files[..2]) && NoneEncloses(files[1..])
  {
    ThreePaths();
    ThreeFiles("a", "a-b", "a/b", object_);
    HiddenBetween(PackageFile("a", object_), PackageFile("a-b", object_), PackageFile("a/b", object_));
  }

  lemma ThreeFiles(x: string, y: string, z: string, object_: ArtifactRef)
    requires ValidArtifact(object_) && ValidRelativePath(x) && ValidRelativePath(y) && ValidRelativePath(z)
    requires StringLess(x, y) && StringLess(y, z) && StringLess(x, z)
    ensures Acceptable([PackageFile(x, object_), PackageFile(y, object_), PackageFile(z, object_)])
  {
  }

  lemma HiddenBetween(x: PackageFile, y: PackageFile, z: PackageFile)
    requires Acceptable([x, y, z]) && FileSystem.Below(Parts(x), Parts(z))
    requires !FileSystem.Below(Parts(x), Parts(y)) && !FileSystem.Below(Parts(y), Parts(x))
    requires !FileSystem.Below(Parts(y), Parts(z)) && !FileSystem.Below(Parts(z), Parts(y))
    ensures !exists tree :: LaysOut(tree, [x, y, z])
    ensures NoneEncloses([x, y, z][..2]) && NoneEncloses([x, y, z][1..])
  {
    var files := [x, y, z];
    LayoutExactly(files);
    assert FileSystem.Below(Parts(files[0]), Parts(files[2]));
    NeighboursApart(x, y);
    NeighboursApart(y, z);
    assert files[..2] == [x, y] && files[1..] == [y, z];
  }

  lemma NeighboursApart(x: PackageFile, y: PackageFile)
    requires !FileSystem.Below(Parts(x), Parts(y)) && !FileSystem.Below(Parts(y), Parts(x))
    ensures NoneEncloses([x, y])
  {
  }

  lemma ThreePaths()
    ensures ValidRelativePath("a") && ValidRelativePath("a-b") && ValidRelativePath("a/b")
    ensures Split("a", '/') == ["a"] && Split("a-b", '/') == ["a-b"] && Split("a/b", '/') == ["a", "b"]
    ensures StringLess("a", "a-b") && StringLess("a-b", "a/b") && StringLess("a", "a/b")
  {
    SinglePart("a");
    SinglePart("a-b");
    SplitAtFirst("a", "b", '/');
    SplitWithout("b", '/');
    assert "a" + ['/'] + "b" == "a/b";
  }

  lemma SinglePart(name: string)
    requires name == "a" || name == "a-b"
    ensures Split(name, '/') == [name] && ValidRelativePath(name)
  {
    SplitWithout(name, '/');
  }
}
