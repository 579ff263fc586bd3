/** The tool on its registry root: `adopt` and `_verify_current` of tools/update_credential_registry_current.py. */
module RegistryTool {
  import opened Prelude
  import opened Text
  import opened FileSystem
  import opened Manifest
  import opened CredentialTree
  import opened CredentialRegistry
  import opened RegistryGrowth
  import opened RegistryReplacement

  /** The walk through a tree in `_validate_tree`, up to the first offence. */
  method ValidateChildren(host: Host, children: seq<Filed<Node>>, public: bool) returns (r: Option<RegistryError>)
    ensures r == FirstOffence(host, children, public)
  {
    for i := 0 to |children|
      invariant FirstOffence(host, children, public) == FirstOffence(host, children[i..], public)
    {
      assert children[i..][1..] == children[i + 1..];
      var child := children[i].value;
      if child.Symlink? {
        return Some(TargetInvalid);
      }
      if !child.owned {
        return Some(TargetPermissionsInvalid);
      }
      if child.Directory? || !public || host.sensitive(NameOf(children[i].path), child.content) {
        if !Unshared(child.mode) {
          return Some(TargetPermissionsInvalid);
        }
      } else if !NotSharedForWriting(child.mode) {
        return Some(TargetPermissionsInvalid);
      }
    }
    assert children[|children|..] == [];
    return None;
  }

  /** `_validate_target` */
  method ValidateTarget(host: Host, files: Files, at: Location, public: bool) returns (r: Option<RegistryError>)
    requires Lawful(host)
    ensures r == TargetError(host, files, at, public)
    ensures r.None? <==> Admissible(host, files, at, public)
  {
    AcceptedExactly(host, files, at, public);
    if IsSymlink(files, at) {
      return Some(TargetInvalid);
    }
    if PRIVATE !in at {
      return Some(PrivatePathRequired);
    }
    if at !in files {
      return Some(TargetInvalid);
    }
    if !files[at].owned || !Unshared(files[at].mode) {
      return Some(TargetPermissionsInvalid);
    }
    if files[at].Directory? {
      r := ValidateChildren(host, Sort(host.listing(files, at)), public);
    } else {
      r := None;
    }
  }

  /** Every chosen target, in manifest order. */
  method ValidateChosen(host: Host, files: Files, chosen: map<string, Location>) returns (r: Option<RegistryError>)
    requires Lawful(host) && chosen.Keys == ALL_NAMES
    ensures r == FirstRefusal(host, files, chosen, NAMES)
  {
    for i := 0 to |NAMES|
      invariant FirstRefusal(host, files, chosen, NAMES) == FirstRefusal(host, files, chosen, NAMES[i..])
    {
      assert NAMES[i..][1..] == NAMES[i + 1..];
      r := ValidateTarget(host, files, chosen[NAMES[i]], AllowsPublic(NAMES[i]));
      if r.Some? {
        return;
      }
    }
    return None;
  }

  method Digest(host: Host, files: Files, at: Location) returns (digest: string)
    requires Lawful(host) && WellFormed(files) && at in files && !files[at].Symlink?
    ensures digest == DigestOf(host, files, at)
  {
    ListedTreeIsValid(host, files, at);
    var bytes := Content(host.sha, TargetAt(host, files, at));
    digest := host.sha(bytes);
  }

  /** The parsing loop of `_verify_current`. */
  method ParseManifest(text: string) returns (r: Option<map<string, string>>)
    ensures r == Parse(text)
  {
    var lines := SplitLines(UniversalNewlines(text));
    var parsed: map<string, string> := map[];
    for i := 0 to |lines|
      invariant ParseLines(lines, map[]) == ParseLines(lines[i..], parsed)
    {
      assert lines[i..][1..] == lines[i + 1..];
      var entry := ParseLine(lines[i]);
      if entry.None? || entry.value.0 in parsed {
        return None;
      }
      parsed := parsed[entry.value.0 := entry.value.1];
    }
    assert lines[|lines|..] == [];
    return if parsed.Keys == ALL_NAMES then Some(parsed) else None;
  }

  /** The entries of the current version against the parsed manifest, first failure first. */
  method VerifyEntries(host: Host, files: Files, dir: Location, parsed: map<string, string>) returns (r: Option<RegistryError>)
    requires Lawful(host) && WellFormed(files) && parsed.Keys == ALL_NAMES
    ensures r == CheckEntries(host, files, dir, parsed, NAMES)
  {
    for i := 0 to |NAMES|
      invariant CheckEntries(host, files, dir, parsed, NAMES) == CheckEntries(host, files, dir, parsed, NAMES[i..])
    {
      var name := NAMES[i];
      assert NAMES[i..][1..] == NAMES[i + 1..];
      if !IsSymlink(files, dir + [name]) {
        return Some(CurrentInvalid);
      }
      var at := Resolve(files, dir, [name], {});
      if at.Loop? {
        return Some(LinkLoop);
      }
      var refused := ValidateTarget(host, files, at.location, AllowsPublic(name));
      if refused.Some? {
        return refused;
      }
      var digest := Digest(host, files, at.location);
      if digest != parsed[name] {
        return Some(HashMismatch);
      }
    }
    return None;
  }

  method VerifyContents(host: Host, files: Files, dir: Location, text: string) returns (r: Result<Report, RegistryError>)
    requires Lawful(host) && WellFormed(files) && |dir| >= 2
    ensures r == CheckContents(host, files, dir, text)
  {
    var parsed := ParseManifest(text);
    if parsed.None? {
      return Err(ManifestInvalid);
    }
    var failed := VerifyEntries(host, files, dir, parsed.value);
    if failed.Some? {
      return Err(failed.value);
    }
    return Ok(Report(dir[|dir| - 2], |parsed.value|, host.sha(text)));
  }

  /** Hash the chosen targets in order. */
  method DigestAll(host: Host, files: Files, chosen: map<string, Location>, names: seq<string>) returns (digests: map<string, string>)
    requires Lawful(host) && WellFormed(files)
    requires forall n :: n in names ==> n in chosen && chosen[n] in files && !files[chosen[n]].Symlink?
    ensures digests.Keys == set n | n in names
    ensures forall n :: n in names ==> digests[n] == DigestOf(host, files, chosen[n])
  {
    digests := map[];
    for i := 0 to |names|
      invariant forall n :: n in digests <==> n in names[..i]
      invariant forall n :: n in digests ==> n in names && digests[n] == DigestOf(host, files, chosen[n])
    {
      var digest := Digest(host, files, chosen[names[i]]);
      digests := digests[names[i] := digest];
    }
  }

  /** Hash the chosen targets in manifest order and print the manifest. */
  method NewManifest(host: Host, files: Files, chosen: map<string, Location>) returns (text: string)
    requires Lawful(host) && WellFormed(files) && chosen.Keys == ALL_NAMES
    requires forall n :: n in chosen ==> chosen[n] in files && !files[chosen[n]].Symlink?
    ensures text == Print(NAMES, ChosenDigests(host, files, chosen))
  {
    var digests := DigestAll(host, files, chosen, NAMES);
    ChosenDigestsAre(host, files, chosen, digests);
    text := Print(NAMES, digests);
  }

  // ---- How an adoption ends ---------------------------------------------------------------------

  /** What happens to the process after so many file operations: it dies, or the next one raises an error. */
  datatype Stop = Crash(after: nat) | Fault(after: nat)

  datatype End = Killed(done: nat) | Raised(done: nat) | Finished
  {
    function Steps(): nat {
      if Finished? then STEPS else done
    }
  }

  /** How many operations can succeed: neither move replaces a directory. */
  function Reachable(ready: Files, root: Location): nat {
    if IsDirectory(ready, root + [CURRENT]) then 8 else if IsDirectory(ready, root + [MANIFEST]) then 10 else STEPS
  }

  function EndOf(ready: Files, root: Location, stop: Stop): End {
    var limit := Reachable(ready, root);
    if stop.after > limit || (stop.after == limit && stop.Fault?) || stop.after >= STEPS then
      if limit == STEPS then Finished else Raised(limit)
    else if stop.Crash? then Killed(stop.after)
    else Raised(stop.after)
  }

  /** `.current*.new` in the root. */
  predicate IsStaged(root: Location, l: Location) {
    |l| == |root| + 1 && l[..|root|] == root && |l[|root|]| >= 12
    && HasPrefix(l[|root|], ".current") && l[|root|][|l[|root|]| - 4..] == ".new"
  }

  /** The handler of an error inside the adoption: staged files are removed. */
  function Cleaned(files: Files, root: Location): Files {
    map l | l in files && !(IsStaged(root, l) && !files[l].Directory?) :: files[l]
  }

  /** The errors of the first two operations are not handled. */
  function Handled(files: Files, root: Location, done: nat): Files {
    if done >= 2 then Cleaned(files, root) else files
  }

  lemma CleanedIsWellFormed(files: Files, root: Location)
    requires WellFormed(files)
    ensures WellFormed(Cleaned(files, root))
  {
    forall l {:trigger Parent(l)} | l in Cleaned(files, root) && l != [] ensures IsDirectory(Cleaned(files, root), Parent(l)) {
      assert IsDirectory(files, Parent(l));
    }
  }

  /** The names that may come or go until the handler is done: those of the adoption, and staged ones left over. */
  function GrowthWithLeftOvers(files: Files, root: Location, a: Adoption): Growth {
    Growth(root, a.run, {a.stagedLink} + set l | l in files && IsStaged(root, l) :: l[|root|])
  }

  /** Every file system that an adoption passes through before the replacement has grown from the one without left-overs. */
  lemma GrownFromCleaned(files: Files, after: Files, root: Location, a: Adoption)
    requires Grown(files, after, GrowthOf(root, a))
    ensures Grown(Cleaned(files, root), after, GrowthWithLeftOvers(files, root, a))
    ensures Grown(Cleaned(files, root), Cleaned(after, root), GrowthWithLeftOvers(files, root, a))
  {
    CleanedIsWellFormed(files, root);
    CleanedIsWellFormed(after, root);
  }

  lemma CurrentIsNotStaged(files: Files, root: Location, a: Adoption)
    requires OtherName(a.stagedLink)
    ensures CURRENT !in GrowthWithLeftOvers(files, root, a).staged
  {
    assert |CURRENT| == 7;
  }

  /**
    After an error before the replacement, with the staged files removed, verification answers as
    before the adoption whenever no link is touched by the added names or by left-overs.
  */
  lemma AnswersAsBeforeAfterError(host: Host, files: Files, root: Location, a: Adoption, text: string, k: nat, expected: Option<string>)
    requires Lawful(host) && Adoptable(files, root, a) && k < REPLACE_CURRENT
    requires Untouched(Cleaned(files, root), GrowthWithLeftOvers(files, root, a))
    ensures var after := Handled(CrashPoint(Prepare(files, root).0, root, a, text, k), root, k);
            WellFormed(after) && Verify(host, files, root, expected) == Verify(host, after, root, expected)
  {
    var point, g := CrashPoint(Prepare(files, root).0, root, a, text, k), GrowthWithLeftOvers(files, root, a);
    EarlyCrashPointIsGrown(files, root, a, text, k);
    EarlyCrashPointIsGrown(files, root, a, text, 0);
    GrownFromCleaned(files, point, root, a);
    CurrentIsNotStaged(files, root, a);
    UntouchedAnswersAsBefore(host, Cleaned(files, root), Handled(point, root, k), g, expected);
    GrownFromCleaned(files, files, root, a);
    UntouchedAnswersAsBefore(host, Cleaned(files, root), files, g, expected);
  }

  /** What the handler leaves has no name in common with what was there, but those that were there without left-overs. */
  lemma NothingNewInCommon(files: Files, after: Files, root: Location)
    requires Extends(files, after)
    ensures forall l :: l in files && l in Cleaned(after, root) ==> l in Cleaned(files, root)
  {
  }

  /** After an error before the replacement some answer differs exactly when what the handler leaves can be told apart. */
  lemma ErrorShowsExactly(host: Host, files: Files, root: Location, a: Adoption, text: string, k: nat)
    requires Lawful(host) && Adoptable(files, root, a) && k < REPLACE_CURRENT
    ensures var after := Cleaned(CrashPoint(Prepare(files, root).0, root, a, text, k), root);
            && WellFormed(Cleaned(files, root)) && WellFormed(after)
            && ((forall expected :: Verify(host, files, root, expected) == Verify(host, after, root, expected)) <==>
                !Shows(host, Cleaned(files, root), files, after, GrowthWithLeftOvers(files, root, a)))
  {
    var point := CrashPoint(Prepare(files, root).0, root, a, text, k);
    EarlyCrashPointIsGrown(files, root, a, text, k);
    GrownFromCleaned(files, point, root, a);
    GrownFromCleaned(files, files, root, a);
    NothingNewInCommon(files, point, root);
    GrowthsShowExactly(host, Cleaned(files, root), files, Cleaned(point, root), GrowthWithLeftOvers(files, root, a));
  }

  /** A `current` that leads through a staged link left over is lost when the handler removes it. */
  lemma HandlerCanLoseCurrent(host: Host, files: Files, root: Location, left: string, expected: Option<string>)
    requires Lawful(host) && WellFormed(files) && IsStaged(root, root + [left]) && !IsDirectory(files, root + [left])
    requires root + [CURRENT] in files && files[root + [CURRENT]] == Symlink(false, [left]) && IsName(left)
    ensures WellFormed(Cleaned(files, root)) && Verify(host, Cleaned(files, root), root, expected) == Err(CurrentMissing)
  {
    var after := Cleaned(files, root);
    CleanedIsWellFormed(files, root);
    NamesAreNames();
    RootHolds(files, root, CURRENT);
    WalkThroughLink(after, root, CURRENT, FOLLOWS);
    assert [left] == [left] + [];
    WalkPastName(after, root, left, [], FOLLOWS - 1);
  }

  /** What is left and answered when the writing ends at a crash point. */
  ghost predicate Leaves(host: Host, point: Files, root: Location, run: string, end: End, files: Files, r: Option<Result<Report, RegistryError>>)
    requires Lawful(host)
  {
    match end
    case Killed(_) => r == None && files == point
    case Raised(done) => r == Some(Err(OperationFailed)) && files == Handled(point, root, done)
    case Finished => files == point && WellFormed(files) && r == Some(Verify(host, files, root, Some(run)))
  }

  /** The manifest an adoption writes. */
  ghost function RecordedText(host: Host, ready: Files, root: Location, a: Adoption): string
    requires Lawful(host) && Checked(host, ready, root, a)
  {
    Print(NAMES, RecordedDigests(host, ready, root, a, "", 2))
  }

  /** The reason why nothing is adopted, and the file system it leaves: at most the root and `versions` were made. */
  function Refused(host: Host, files: Files, root: Location, commit: string, a: Adoption): Option<(RegistryError, Files)> {
    var request := RefusedRequest(a.run, commit, a.chosen);
    if request.Some? then Some((request.value, files))
    else
      var (ready, failed) := Prepare(files, root);
      if failed.Some? then Some((failed.value, ready))
      else
        var refused := RefusedTargets(host, ready, root, a);
        if refused.Some? then Some((refused.value, ready)) else None
  }

  lemma NothingRefused(host: Host, files: Files, root: Location, commit: string, a: Adoption)
    requires Lawful(host) && Startable(files, root, a) && Refused(host, files, root, commit, a).None?
    ensures Adoptable(files, root, a) && Checked(host, Prepare(files, root).0, root, a)
    ensures Reachable(Prepare(files, root).0, root) == STEPS ==>
              Replaceable(Prepare(files, root).0, root, a) && !IsDirectory(Prepare(files, root).0, root + [MANIFEST])
  {
    NothingRefusedExactly(host, Prepare(files, root).0, a.chosen, NAMES);
    Prepared(files, root, a);
    AdoptableIsReady(files, root, a);
    NotVersions(root, a.stagedManifest);
  }

  lemma {:induction false} TextComesLate(ready: Files, root: Location, a: Adoption, x: string, y: string, k: nat)
    requires a.chosen.Keys == ALL_NAMES && k < REPLACE_CURRENT
    ensures CrashPoint(ready, root, a, x, k) == CrashPoint(ready, root, a, y, k)
  {
    if k > 0 {
      TextComesLate(ready, root, a, x, y, k - 1);
    }
  }

  class Registry {
    const root: Location
    var files: Files

    constructor (root: Location, files: Files)
      ensures this.root == root && this.files == files
    {
      this.root, this.files := root, files;
    }

    /** The checks on links, owners and modes. */
    method CheckCurrent(expected: Option<string>) returns (refused: Option<RegistryError>)
      ensures refused == CheckDirectory(files, root, expected)
    {
      if !Present(files, root) {
        return Some(CurrentMissing);
      }
      if !Private(files, root, PRIVATE_DIRECTORY) {
        return Some(RootPermissionsInvalid);
      }
      if !Private(files, ManifestAt(files, root).value, PRIVATE_FILE) {
        return Some(ManifestPermissionsInvalid);
      }
      var dir := CurrentAt(files, root).value;
      var versions := VersionsAt(files, root);
      if versions.Loop? {
        return Some(LinkLoop);
      }
      if |dir| < 2 || dir[..|dir| - 2] != versions.location {
        return Some(CurrentInvalid);
      }
      if !Private(files, dir, PRIVATE_DIRECTORY) {
        return Some(CurrentPermissionsInvalid);
      }
      if expected.Some? && dir[|dir| - 2] != expected.value {
        return Some(RunIdMismatch);
      }
      if ChildNames(files, dir) != ALL_NAMES {
        return Some(CurrentInvalid);
      }
      return None;
    }

    /** `_verify_current` */
    method VerifyCurrent(host: Host, expected: Option<string>) returns (r: Result<Report, RegistryError>)
      requires Lawful(host) && WellFormed(files)
      ensures r == Verify(host, files, root, expected)
    {
      var refused := CheckCurrent(expected);
      if refused.Some? {
        return Err(refused.value);
      }
      var dir, text := CurrentAt(files, root).value, ManifestText(files, root);
      r := VerifyContents(host, files, dir, text);
    }

    /** The version directory and the link directory in it. */
    method MakeVersion(a: Adoption, limit: nat)
      requires a.chosen.Keys == ALL_NAMES
      modifies this`files
      ensures files == CrashPoint(old(files), root, a, "", if limit < 2 then limit else 2)
    {
      if limit == 0 {
        return;
      }
      files := files[root + [VERSIONS, a.run] := Directory(true, PRIVATE_DIRECTORY)];
      assert files == CrashPoint(old(files), root, a, "", 1);
      if limit == 1 {
        return;
      }
      files := files[root + [VERSIONS, a.run, CURRENT] := Directory(true, PRIVATE_DIRECTORY)];
    }

    /** One link for each name, in manifest order. */
    method LinkTargets(ghost ready: Files, a: Adoption, ghost text: string, limit: nat)
      requires a.chosen.Keys == ALL_NAMES && 2 <= limit && files == CrashPoint(ready, root, a, text, 2)
      modifies this`files
      ensures files == CrashPoint(ready, root, a, text, if limit < 7 then limit else 7)
    {
      var i := 0;
      while i < |NAMES| && i + 2 < limit
        invariant i <= |NAMES| && i + 2 <= limit
        invariant files == CrashPoint(ready, root, a, text, i + 2)
      {
        files := files[LinkDirectory(root, a.run) + [NAMES[i]] := Symlink(true, a.chosen[NAMES[i]])];
        i := i + 1;
      }
    }

    /** Stage and replace the link, then write and replace the manifest. */
    method Publish(ghost ready: Files, a: Adoption, text: string, ghost early: nat, limit: nat)
      requires a.chosen.Keys == ALL_NAMES && early == 7 < limit <= STEPS && files == CrashPoint(ready, root, a, text, early)
      modifies this`files
      ensures files == CrashPoint(ready, root, a, text, limit)
    {
      files := Perform(files, Add(root + [a.stagedLink], Symlink(false, [VERSIONS, a.run, CURRENT])));
      assert files == CrashPoint(ready, root, a, text, early + 1);
      if limit >= 9 {
        files := Perform(files, Move(root + [a.stagedLink], root + [CURRENT]));
        assert files == CrashPoint(ready, root, a, text, early + 2);
      }
      if limit >= 10 {
        files := Perform(files, Add(root + [a.stagedManifest], File(true, PRIVATE_FILE, text)));
        assert files == CrashPoint(ready, root, a, text, early + 3);
      }
      if limit >= 11 {
        files := Perform(files, Move(root + [a.stagedManifest], root + [MANIFEST]));
      }
    }

    /** `adopt`; the answer is None if the process dies. */
    method Adopt(host: Host, commit: string, a: Adoption, stop: Stop) returns (r: Option<Result<Report, RegistryError>>)
      requires Lawful(host) && Startable(files, root, a)
      modifies this`files
      ensures match Refused(host, old(files), root, commit, a)
              case Some((e, touched)) => r == Some(Err(e)) && files == touched
              case None =>
                var ready := Prepare(old(files), root).0;
                && Checked(host, ready, root, a)
                && (var text := RecordedText(host, ready, root, a);
                    var end := EndOf(ready, root, stop);
                    Leaves(host, CrashPoint(ready, root, a, text, end.Steps()), root, a.run, end, files, r))
    {
      var request := RefusedRequest(a.run, commit, a.chosen);
      if request.Some? {
        return Some(Err(request.value));
      }
      var (ready, failed) := Prepare(files, root);
      files := ready;
      if failed.Some? {
        return Some(Err(failed.value));
      }
      var refused := ValidateChosen(host, ready, a.chosen);
      if refused.Some? {
        return Some(Err(refused.value));
      }
      if VersionDirectory(root, a.run) in ready {
        return Some(Err(RunExists));
      }
      NothingRefused(host, old(files), root, commit, a);
      r := Write(host, a, EndOf(ready, root, stop));
    }

    /** The writing part of `adopt`, up to its end. */
    method Write(host: Host, a: Adoption, end: End) returns (r: Option<Result<Report, RegistryError>>)
      requires Lawful(host) && Checked(host, files, root, a)
      requires if end.Finished? then Replaceable(files, root, a) && !IsDirectory(files, root + [MANIFEST]) else end.done <= STEPS
      modifies this`files
      ensures var text := RecordedText(host, old(files), root, a);
              Leaves(host, CrashPoint(old(files), root, a, text, end.Steps()), root, a.run, end, files, r)
    {
      ghost var ready := files;
      var limit := end.Steps();
      Fill(host, a, limit);
      match end {
        case Killed(_) =>
          r := None;
        case Raised(done) =>
          if done >= 2 {
            files := Cleaned(files, root);
          }
          r := Some(Err(OperationFailed));
        case Finished =>
          LatePointIsInstalled(ready, root, a, RecordedText(host, ready, root, a), limit);
          var verified := VerifyCurrent(host, Some(a.run));
          r := Some(verified);
      }
    }

    /** The first file operations, with the manifest made of the digests at that time. */
    method Fill(host: Host, a: Adoption, limit: nat)
      requires Lawful(host) && Checked(host, files, root, a) && limit <= STEPS
      modifies this`files
      ensures files == CrashPoint(old(files), root, a, RecordedText(host, old(files), root, a), limit)
    {
      ghost var ready := files;
      MakeVersion(a, limit);
      if limit < 2 {
        TextComesLate(ready, root, a, "", RecordedText(host, ready, root, a), limit);
        return;
      }
      EarlyStepsGrow(ready, root, a, "", 2);
      var text := NewManifest(host, files, a.chosen);
      LinkAndPublish(ready, a, text, limit);
    }

    method LinkAndPublish(ghost ready: Files, a: Adoption, text: string, limit: nat)
      requires a.chosen.Keys == ALL_NAMES && 2 <= limit <= STEPS && files == CrashPoint(ready, root, a, "", 2)
      modifies this`files
      ensures files == CrashPoint(ready, root, a, text, limit)
    {
      TextComesLate(ready, root, a, "", text, 2);
      LinkTargets(ready, a, text, limit);
      if limit > 7 {
        Publish(ready, a, text, 7, limit);
      }
    }
  }
}
