/** What verification answers from the replacement of `current` on, and after a completed adoption. */
module RegistryReplacement {
  import opened Prelude
  import opened FileSystem
  import opened Manifest
  import opened CredentialRegistry
  import opened RegistryGrowth

  /** The names an adoption writes to, and nothing else. */
  predicate Touched(root: Location, a: Adoption, l: Location) {
    || l == VersionDirectory(root, a.run) || Below(VersionDirectory(root, a.run), l)
    || l == root + [a.stagedLink] || l == root + [CURRENT] || l == root + [a.stagedManifest] || l == root + [MANIFEST]
  }

  ghost predicate AgreeOff(x: Files, y: Files, root: Location, a: Adoption) {
    forall l :: !Touched(root, a, l) ==> (l in x <==> l in y) && (l in x ==> x[l] == y[l])
  }

  lemma {:induction false} StepsTouch(ready: Files, root: Location, a: Adoption, text: string, k: nat)
    requires a.chosen.Keys == ALL_NAMES && k <= STEPS
    ensures AgreeOff(ready, CrashPoint(ready, root, a, text, k), root, a)
  {
    if k > 0 {
      StepsTouch(ready, root, a, text, k - 1);
      StepTouches(CrashPoint(ready, root, a, text, k - 1), root, a, text, k - 1);
    }
  }

  lemma StepTouches(files: Files, root: Location, a: Adoption, text: string, i: nat)
    requires a.chosen.Keys == ALL_NAMES && i < STEPS
    ensures AgreeOff(files, Perform(files, Step(root, a, text, i)), root, a)
  {
    var change := Step(root, a, text, i);
    assert if change.Add? then Touched(root, a, change.at) else Touched(root, a, change.from) && Touched(root, a, change.to);
  }

  /** A target that adoption writes neither to nor below. */
  predicate Apart(root: Location, at: Location) {
    !(at <= root + [VERSIONS]) && at != root + [CURRENT] && at != root + [MANIFEST]
  }

  lemma ApartIsUntouched(ready: Files, root: Location, a: Adoption, at: Location, l: Location)
    requires WellFormed(ready) && VersionDirectory(root, a.run) !in ready
    requires root + [a.stagedLink] !in ready && root + [a.stagedManifest] !in ready
    requires at in ready && Apart(root, at) && (l == at || Below(at, l))
    ensures !Touched(root, a, l)
  {
    var versions, version := root + [VERSIONS], VersionDirectory(root, a.run);
    assert version[..|versions|] == versions;
    if |at| > |version| && at[..|version|] == version {
      NothingBelowMissing(ready, version, at);
    }
    assert forall name :: |at| <= |root| && at == (root + [name])[..|at|] ==> at == versions[..|at|];
  }

  /** A link directory holds exactly these links. */
  ghost predicate Linked(files: Files, links: Location, chosen: map<string, Location>, names: set<string>) {
    && (forall n :: n in names ==> n in chosen && links + [n] in files && files[links + [n]] == Symlink(true, chosen[n]))
    && (forall l :: l in files && Below(links, l) ==> |l| == |links| + 1 && l[|links|] in names)
  }

  lemma AddLink(files: Files, links: Location, chosen: map<string, Location>, names: set<string>, name: string)
    requires Linked(files, links, chosen, names) && name in chosen
    ensures Linked(files[links + [name] := Symlink(true, chosen[name])], links, chosen, names + {name})
  {
  }

  function FirstNames(k: nat): set<string>
    requires k <= |NAMES|
  {
    if k == 0 then {} else FirstNames(k - 1) + {NAMES[k - 1]}
  }

  lemma {:induction false} LinksInPlace(ready: Files, root: Location, a: Adoption, text: string, k: nat)
    requires Ready(ready, root, a) && k <= 5
    ensures Linked(CrashPoint(ready, root, a, text, k + 2), LinkDirectory(root, a.run), a.chosen, FirstNames(k))
  {
    if k == 0 {
      NothingLinked(ready, root, a, text);
    } else {
      LinksInPlace(ready, root, a, text, k - 1);
      AddLink(CrashPoint(ready, root, a, text, k + 1), LinkDirectory(root, a.run), a.chosen, FirstNames(k - 1), NAMES[k - 1]);
    }
  }

  lemma NothingLinked(ready: Files, root: Location, a: Adoption, text: string)
    requires Ready(ready, root, a)
    ensures Linked(CrashPoint(ready, root, a, text, 2), LinkDirectory(root, a.run), a.chosen, {})
  {
    var links, version := LinkDirectory(root, a.run), VersionDirectory(root, a.run);
    assert links[..|version|] == version;
    assert forall l :: Below(links, l) ==> Below(version, l);
    forall l | Below(version, l) ensures l !in ready {
      NothingBelowMissing(ready, version, l);
    }
    assert CrashPoint(ready, root, a, text, 2) == CrashPoint(ready, root, a, text, 1)[links := Directory(true, PRIVATE_DIRECTORY)];
    assert CrashPoint(ready, root, a, text, 1) == ready[version := Directory(true, PRIVATE_DIRECTORY)];
  }

  /** The first move can be made: `current` is no directory, and the staged names are free. */
  ghost predicate Replaceable(ready: Files, root: Location, a: Adoption) {
    && Ready(ready, root, a) && IsName(a.stagedManifest) && a.stagedLink != a.stagedManifest
    && root + [a.stagedManifest] !in ready
    && OtherName(a.stagedLink) && OtherName(a.stagedManifest)
    && !IsDirectory(ready, root + [CURRENT])
  }

  /** The four names in the root keep apart. */
  lemma NamesInRoot(root: Location, x: string, y: string)
    ensures root + [x] == root + [y] <==> x == y
    ensures Parent(root + [x]) == root && (root + [x])[|root + [x]| - 1] == x
  {
    assert (root + [x])[|root|] == x && (root + [y])[|root|] == y;
  }

  /** The entries of the root directory agree on a name. */
  ghost predicate SameEntry(x: Files, y: Files, at: Location) {
    (at in x <==> at in y) && (at in x ==> x[at] == y[at])
  }

  lemma MoveInRoot(files: Files, root: Location, from: string, to: string, other: string)
    requires WellFormed(files) && root + [from] in files && !IsDirectory(files, root + [from]) && !IsDirectory(files, root + [to])
    requires IsName(to) && other != from && other != to && from != to
    ensures var after := Perform(files, Move(root + [from], root + [to]));
            && WellFormed(after) && root + [to] in after && after[root + [to]] == files[root + [from]]
            && SameEntry(files, after, root + [other])
  {
    NamesInRoot(root, from, to);
    NamesInRoot(root, other, from);
    NamesInRoot(root, other, to);
    NamesInRoot(root, to, to);
    RootHolds(files, root, from);
  }

  lemma AddInRoot(files: Files, root: Location, name: string, node: Node, other: string)
    requires WellFormed(files) && IsDirectory(files, root) && root + [name] !in files && IsName(name) && other != name
    requires !node.Symlink? ==> node.mode < 0x1000
    ensures var after := Perform(files, Add(root + [name], node));
            && WellFormed(after) && root + [name] in after && after[root + [name]] == node
            && SameEntry(files, after, root + [other])
  {
    NamesInRoot(root, name, other);
    NamesInRoot(root, other, name);
    AddKeepsWellFormed(files, root + [name], node);
  }

  function NewLink(a: Adoption): Node {
    Symlink(false, [VERSIONS, a.run, CURRENT])
  }

  lemma StagedLinkPoint(ready: Files, files: Files, root: Location, a: Adoption)
    requires Replaceable(ready, root, a)
    requires WellFormed(files) && Growing(ready, files, VersionDirectory(root, a.run), LinkDirectory(root, a.run), root + [a.stagedLink], 8)
    ensures IsDirectory(files, root) && SameEntry(ready, files, root + [CURRENT]) && SameEntry(ready, files, root + [MANIFEST])
    ensures root + [a.stagedManifest] !in files
  {
    EntryUntouchedEarly(ready, files, root, a, CURRENT);
    EntryUntouchedEarly(ready, files, root, a, MANIFEST);
    EntryUntouchedEarly(ready, files, root, a, a.stagedManifest);
  }

  lemma EntryUntouchedEarly(ready: Files, files: Files, root: Location, a: Adoption, name: string)
    requires Growing(ready, files, VersionDirectory(root, a.run), LinkDirectory(root, a.run), root + [a.stagedLink], 8) && name != a.stagedLink
    ensures SameEntry(ready, files, root + [name])
  {
    NamesInRoot(root, a.stagedLink, name);
    assert |VersionDirectory(root, a.run)| == |root| + 2;
  }

  /** The file systems at the last four crash points. */
  lemma LatePoints(ready: Files, root: Location, a: Adoption, text: string, k: nat) returns (staged: Files, current: Files, written: Files, final: Files)
    requires Replaceable(ready, root, a) && k == 8
    ensures staged == CrashPoint(ready, root, a, text, k) && current == CrashPoint(ready, root, a, text, k + 1)
    ensures written == CrashPoint(ready, root, a, text, k + 2) && final == CrashPoint(ready, root, a, text, k + 3)
    ensures WellFormed(staged) && Growing(ready, staged, VersionDirectory(root, a.run), LinkDirectory(root, a.run), root + [a.stagedLink], 8)
    ensures root + [a.stagedLink] in staged && staged[root + [a.stagedLink]] == NewLink(a)
    ensures current == Perform(staged, Move(root + [a.stagedLink], root + [CURRENT]))
    ensures written == Perform(current, Add(root + [a.stagedManifest], File(true, PRIVATE_FILE, text)))
    ensures final == Perform(written, Move(root + [a.stagedManifest], root + [MANIFEST]))
  {
    EarlyStepsGrow(ready, root, a, text, k);
    staged, current := CrashPoint(ready, root, a, text, k), CrashPoint(ready, root, a, text, k + 1);
    written, final := CrashPoint(ready, root, a, text, k + 2), CrashPoint(ready, root, a, text, k + 3);
    assert staged == Perform(CrashPoint(ready, root, a, text, k - 1), Step(root, a, text, k - 1));
  }

  lemma AfterFirstMove(staged: Files, root: Location, a: Adoption)
    requires WellFormed(staged) && root + [a.stagedLink] in staged && staged[root + [a.stagedLink]] == NewLink(a)
    requires !IsDirectory(staged, root + [CURRENT]) && root + [a.stagedManifest] !in staged
    requires OtherName(a.stagedLink) && OtherName(a.stagedManifest) && a.stagedLink != a.stagedManifest
    ensures var current := Perform(staged, Move(root + [a.stagedLink], root + [CURRENT]));
            && WellFormed(current) && IsDirectory(current, root) && root + [CURRENT] in current && current[root + [CURRENT]] == NewLink(a)
            && SameEntry(staged, current, root + [MANIFEST]) && root + [a.stagedManifest] !in current
  {
    NamesAreNames();
    MoveInRoot(staged, root, a.stagedLink, CURRENT, MANIFEST);
    MoveInRoot(staged, root, a.stagedLink, CURRENT, a.stagedManifest);
    RootHolds(Perform(staged, Move(root + [a.stagedLink], root + [CURRENT])), root, CURRENT);
  }

  lemma AfterManifestWrite(current: Files, root: Location, a: Adoption, node: Node)
    requires WellFormed(current) && IsDirectory(current, root) && root + [CURRENT] in current && current[root + [CURRENT]] == NewLink(a)
    requires root + [a.stagedManifest] !in current && OtherName(a.stagedManifest) && IsName(a.stagedManifest)
    requires node.File? && node.mode < 0x1000
    ensures var written := Perform(current, Add(root + [a.stagedManifest], node));
            && WellFormed(written) && root + [CURRENT] in written && written[root + [CURRENT]] == NewLink(a)
            && SameEntry(current, written, root + [MANIFEST])
    ensures var final := Perform(Perform(current, Add(root + [a.stagedManifest], node)), Move(root + [a.stagedManifest], root + [MANIFEST]));
            !IsDirectory(current, root + [MANIFEST]) ==>
            && WellFormed(final) && root + [CURRENT] in final && final[root + [CURRENT]] == NewLink(a)
            && root + [MANIFEST] in final && final[root + [MANIFEST]] == node
  {
    NamesAreNames();
    AddInRoot(current, root, a.stagedManifest, node, CURRENT);
    AddInRoot(current, root, a.stagedManifest, node, MANIFEST);
    if !IsDirectory(current, root + [MANIFEST]) {
      MoveInRoot(Perform(current, Add(root + [a.stagedManifest], node)), root, a.stagedManifest, MANIFEST, CURRENT);
    }
  }

  /** What the root directory holds at the last three crash points; the last move needs a manifest that is no directory. */
  lemma ReplacedEntries(ready: Files, root: Location, a: Adoption, text: string, k: nat)
    requires Replaceable(ready, root, a) && REPLACE_CURRENT <= k <= STEPS && (k == STEPS ==> !IsDirectory(ready, root + [MANIFEST]))
    ensures var files := CrashPoint(ready, root, a, text, k);
            && WellFormed(files) && root + [CURRENT] in files && files[root + [CURRENT]] == NewLink(a)
            && if k < STEPS then SameEntry(ready, files, root + [MANIFEST])
               else root + [MANIFEST] in files && files[root + [MANIFEST]] == File(true, PRIVATE_FILE, text)
  {
    var early: nat := 8;
    var staged, current, written, final := LatePoints(ready, root, a, text, early);
    StagedLinkPoint(ready, staged, root, a);
    AfterFirstMove(staged, root, a);
    AfterManifestWrite(current, root, a, File(true, PRIVATE_FILE, text));
    assert k == early + 1 || k == early + 2 || k == early + 3;
  }

  /** The last four steps write to the root directory only. */
  ghost predicate AgreeOutside(x: Files, y: Files, length: nat) {
    forall l :: |l| != length ==> (l in x <==> l in y) && (l in x ==> x[l] == y[l])
  }

  lemma LateStepStaysInRoot(files: Files, root: Location, a: Adoption, text: string, i: nat)
    requires a.chosen.Keys == ALL_NAMES && 7 <= i < STEPS
    ensures AgreeOutside(files, Perform(files, Step(root, a, text, i)), |root| + 1)
  {
    var change := Step(root, a, text, i);
    assert if change.Add? then |change.at| == |root| + 1 else |change.from| == |change.to| == |root| + 1;
  }

  lemma NextPoint(ready: Files, root: Location, a: Adoption, text: string, k: nat) returns (point: Files, next: Files)
    requires a.chosen.Keys == ALL_NAMES && 7 <= k < STEPS
    ensures point == CrashPoint(ready, root, a, text, k) && next == CrashPoint(ready, root, a, text, k + 1)
    ensures AgreeOutside(point, next, |root| + 1)
  {
    point, next := CrashPoint(ready, root, a, text, k), CrashPoint(ready, root, a, text, k + 1);
    LateStepStaysInRoot(point, root, a, text, k);
  }

  lemma LateStepsStayInRoot(ready: Files, root: Location, a: Adoption, text: string, early: nat, k: nat)
    requires a.chosen.Keys == ALL_NAMES && 7 == early <= k <= STEPS
    ensures AgreeOutside(CrashPoint(ready, root, a, text, early), CrashPoint(ready, root, a, text, k), |root| + 1)
  {
    var length := |root| + 1;
    var linked, staged := NextPoint(ready, root, a, text, early);
    var staged', current := NextPoint(ready, root, a, text, early + 1);
    var current', written := NextPoint(ready, root, a, text, early + 2);
    var written', final := NextPoint(ready, root, a, text, early + 3);
    AgreeTogether(linked, staged, current, length);
    AgreeTogether(linked, current, written, length);
    AgreeTogether(linked, written, final, length);
    assert k == early || k == early + 1 || k == early + 2 || k == early + 3 || k == early + 4;
  }

  lemma AgreeTogether(x: Files, y: Files, z: Files, length: nat)
    requires AgreeOutside(x, y, length) && AgreeOutside(y, z, length)
    ensures AgreeOutside(x, z, length)
  {
  }

  /** `current` leads to the complete links of the new version. */
  ghost predicate Installed(files: Files, root: Location, a: Adoption) {
    && WellFormed(files) && IsName(a.run) && a.chosen.Keys == ALL_NAMES && !IsSymlink(files, root + [VERSIONS])
    && root + [CURRENT] in files && files[root + [CURRENT]] == NewLink(a)
    && LinkDirectory(root, a.run) in files && files[LinkDirectory(root, a.run)] == Directory(true, PRIVATE_DIRECTORY)
    && Linked(files, LinkDirectory(root, a.run), a.chosen, ALL_NAMES)
  }

  lemma LinkedElsewhere(x: Files, y: Files, links: Location, chosen: map<string, Location>, names: set<string>, length: nat)
    requires Linked(x, links, chosen, names) && AgreeOutside(x, y, length) && length < |links|
    ensures Linked(y, links, chosen, names)
  {
  }

  lemma AllLinked(ready: Files, root: Location, a: Adoption, text: string, early: nat, k: nat)
    requires Ready(ready, root, a) && 7 == early <= k <= STEPS
    ensures var files, links := CrashPoint(ready, root, a, text, k), LinkDirectory(root, a.run);
            && links in files && files[links] == Directory(true, PRIVATE_DIRECTORY) && Linked(files, links, a.chosen, ALL_NAMES)
  {
    EarlyStepsGrow(ready, root, a, text, early);
    LinksInPlace(ready, root, a, text, early - 2);
    LateStepsStayInRoot(ready, root, a, text, early, k);
    LinkedElsewhere(CrashPoint(ready, root, a, text, early), CrashPoint(ready, root, a, text, k), LinkDirectory(root, a.run), a.chosen, ALL_NAMES, |root| + 1);
  }

  lemma VersionsUntouched(root: Location, a: Adoption)
    requires a.stagedLink != VERSIONS && a.stagedManifest != VERSIONS
    ensures !Touched(root, a, root + [VERSIONS])
  {
    NamesInRoot(root, VERSIONS, a.stagedLink);
    NamesInRoot(root, VERSIONS, a.stagedManifest);
    NamesInRoot(root, VERSIONS, CURRENT);
    NamesInRoot(root, VERSIONS, MANIFEST);
  }

  lemma LatePointIsInstalled(ready: Files, root: Location, a: Adoption, text: string, k: nat)
    requires Replaceable(ready, root, a) && REPLACE_CURRENT <= k <= STEPS && (k == STEPS ==> !IsDirectory(ready, root + [MANIFEST]))
    ensures Installed(CrashPoint(ready, root, a, text, k), root, a)
  {
    ReplacedEntries(ready, root, a, text, k);
    AllLinked(ready, root, a, text, 7, k);
    StepsTouch(ready, root, a, text, k);
    VersionsUntouched(root, a);
  }

  lemma InstalledLeads(files: Files, root: Location, a: Adoption)
    requires Installed(files, root, a)
    ensures CurrentAt(files, root) == Some(LinkDirectory(root, a.run)) && VersionsAt(files, root) == At(root + [VERSIONS])
  {
    NamesAreNames();
    RootHolds(files, root, CURRENT);
    WalkThroughLink(files, root, CURRENT, FOLLOWS);
    WalkDown(files, root, [VERSIONS, a.run, CURRENT], FOLLOWS - 1);
    VersionsStay(files, root);
  }

  lemma EntryLeads(files: Files, root: Location, a: Adoption, n: string)
    requires Installed(files, root, a) && n in ALL_NAMES
    ensures Resolve(files, LinkDirectory(root, a.run), [n], {}) == Resolve(files, [], a.chosen[n], {LinkDirectory(root, a.run) + [n]})
  {
    NamesAreNames();
    ResolveThroughLink(files, LinkDirectory(root, a.run), n, {});
    assert {} + {LinkDirectory(root, a.run) + [n]} == {LinkDirectory(root, a.run) + [n]};
  }

  /** The manifest is where and as it must be. */
  predicate HasManifest(files: Files, root: Location) {
    var at := ManifestAt(files, root);
    at.Some? && IsFile(files, at.value) && Private(files, at.value, PRIVATE_FILE)
  }

  lemma LinkDirectoryForm(root: Location, run: string)
    ensures var links := LinkDirectory(root, run); |links| >= 2 && links[|links| - 2] == run && links[..|links| - 2] == root + [VERSIONS]
  {
  }

  lemma InstalledDirectory(files: Files, root: Location, a: Adoption, expected: Option<string>)
    requires Installed(files, root, a) && Private(files, root, PRIVATE_DIRECTORY)
    ensures CheckDirectory(files, root, expected).None? <==> HasManifest(files, root) && (expected.Some? ==> expected.value == a.run)
    ensures CurrentAt(files, root) == Some(LinkDirectory(root, a.run))
  {
    InstalledLeads(files, root, a);
    LinkDirectoryForm(root, a.run);
  }

  lemma VerifyByContents(host: Host, files: Files, root: Location, dir: Location, expected: Option<string>)
    requires Lawful(host) && WellFormed(files) && CurrentAt(files, root) == Some(dir) && |dir| >= 2
    requires CheckDirectory(files, root, expected).None? <==> HasManifest(files, root) && (expected.Some? ==> expected.value == dir[|dir| - 2])
    ensures Verify(host, files, root, expected).Ok? <==>
            && (expected.Some? ==> expected.value == dir[|dir| - 2]) && HasManifest(files, root) && Complete(host, files, dir)
            && Parse(files[ManifestAt(files, root).value].content) == Some(Digests(host, files, dir))
    ensures Verify(host, files, root, expected).Ok? ==>
              Verify(host, files, root, expected).value == Report(dir[|dir| - 2], 5, host.sha(files[ManifestAt(files, root).value].content))
  {
    if CheckDirectory(files, root, expected).None? {
      ContentsExactly(host, files, dir, ManifestText(files, root));
    }
  }

  /** Once `current` leads to the new links, everything depends on the manifest and the targets. */
  lemma VerifyInstalled(host: Host, files: Files, root: Location, a: Adoption, expected: Option<string>)
    requires Lawful(host) && Installed(files, root, a) && Private(files, root, PRIVATE_DIRECTORY)
    ensures var links := LinkDirectory(root, a.run);
            Verify(host, files, root, expected).Ok? <==>
            && (expected.Some? ==> expected.value == a.run) && HasManifest(files, root) && Complete(host, files, links)
            && Parse(files[ManifestAt(files, root).value].content) == Some(Digests(host, files, links))
    ensures Verify(host, files, root, expected).Ok? ==>
              Verify(host, files, root, expected).value == Report(a.run, 5, host.sha(files[ManifestAt(files, root).value].content))
  {
    var links := LinkDirectory(root, a.run);
    InstalledDirectory(files, root, a, expected);
    LinkDirectoryForm(root, a.run);
    VerifyByContents(host, files, root, links, expected);
  }

  /** A chosen path, followed from the link that holds it, leads to an acceptable target of this digest. */
  ghost predicate Delivers(host: Host, files: Files, link: Location, path: Location, digest: string)
    requires Lawful(host) && WellFormed(files) && link != []
  {
    LeadTo(host, files, Resolve(files, [], path, {link}), AllowsPublic(NameOf(link))) == Accepted(digest)
  }

  /** The link made for an entry. */
  function EntryLink(root: Location, a: Adoption, n: string): (link: Location)
    ensures link != []
  {
    LinkDirectory(root, a.run) + [n]
  }

  lemma EntryDelivers(host: Host, files: Files, root: Location, a: Adoption, n: string, digest: string)
    requires Lawful(host) && Installed(files, root, a) && n in ALL_NAMES
    ensures var links := LinkDirectory(root, a.run);
            LeadOf(host, files, links, n) == Accepted(digest) <==> Delivers(host, files, EntryLink(root, a, n), a.chosen[n], digest)
  {
    EntryLeads(files, root, a, n);
  }

  lemma VerifyRecorded(host: Host, files: Files, root: Location, a: Adoption, digests: map<string, string>, expected: Option<string>)
    requires Lawful(host) && Installed(files, root, a) && Private(files, root, PRIVATE_DIRECTORY) && digests.Keys == ALL_NAMES
    requires HasManifest(files, root) && Parse(files[ManifestAt(files, root).value].content) == Some(digests)
    ensures Verify(host, files, root, expected).Ok? <==>
            (expected.Some? ==> expected.value == a.run) && forall n :: n in digests ==> Delivers(host, files, EntryLink(root, a, n), a.chosen[n], digests[n])
  {
    VerifyInstalled(host, files, root, a, expected);
    DigestsAre(host, files, LinkDirectory(root, a.run), digests);
    forall n | n in digests
      ensures LeadOf(host, files, LinkDirectory(root, a.run), n) == Accepted(digests[n]) <==>
              Delivers(host, files, EntryLink(root, a, n), a.chosen[n], digests[n])
    {
      EntryDelivers(host, files, root, a, n, digests[n]);
    }
  }

  /**
    After a completed adoption, for as long as the registry itself stays as it is: verification
    succeeds exactly while every chosen path leads to an acceptable target that hashes as recorded.
  */
  lemma AfterAdoption(host: Host, later: Files, root: Location, a: Adoption, digests: map<string, string>, expected: Option<string>)
    requires Lawful(host) && Installed(later, root, a) && Private(later, root, PRIVATE_DIRECTORY)
    requires digests.Keys == ALL_NAMES && forall n :: n in digests ==> IsDigest(digests[n])
    requires root + [MANIFEST] in later && later[root + [MANIFEST]] == File(true, PRIVATE_FILE, Print(NAMES, digests))
    ensures var r := Verify(host, later, root, expected);
            && (r.Ok? <==> (expected.Some? ==> expected.value == a.run) && forall n :: n in digests ==> Delivers(host, later, EntryLink(root, a, n), a.chosen[n], digests[n]))
            && (r.Ok? ==> r.value == Report(a.run, 5, host.sha(Print(NAMES, digests))))
  {
    WalkDown(later, root, [MANIFEST], FOLLOWS);
    ManifestRoundTrip(digests);
    VerifyRecorded(host, later, root, a, digests, expected);
    VerifyInstalled(host, later, root, a, expected);
  }

  // ---- Targets and the registry's own names -----------------------------------------------------

  lemma ChosenKept(host: Host, ready: Files, after: Files, root: Location, a: Adoption, n: string)
    requires Lawful(host) && Replaceable(ready, root, a) && n in ALL_NAMES && Admissible(host, ready, a.chosen[n], AllowsPublic(n))
    requires WellFormed(after) && AgreeFrom(ready, after, a.chosen[n])
    ensures Delivers(host, after, EntryLink(root, a, n), a.chosen[n], DigestOf(host, ready, a.chosen[n]))
    ensures forall digest :: Delivers(host, after, EntryLink(root, a, n), a.chosen[n], digest) ==> digest == DigestOf(host, ready, a.chosen[n])
  {
    var at := a.chosen[n];
    AcceptedExactly(host, ready, at, AllowsPublic(n));
    LeadIsLocal(host, ready, after, at, AllowsPublic(n));
    assert [] + at == at;
    ResolveDown(after, [], at, {EntryLink(root, a, n)});
  }

  lemma ApartAgrees(ready: Files, after: Files, root: Location, a: Adoption, at: Location)
    requires Replaceable(ready, root, a) && AgreeOff(ready, after, root, a) && at in ready && Apart(root, at)
    ensures AgreeFrom(ready, after, at)
  {
    forall l | l == at || Below(at, l) ensures !Touched(root, a, l) {
      ApartIsUntouched(ready, root, a, at, l);
    }
  }

  /** A chosen target that neither encloses the registry nor is replaced by `current`. */
  predicate Lasting(root: Location, at: Location) {
    !(at <= root + [VERSIONS]) && at != root + [CURRENT]
  }

  lemma ResolveAncestor(files: Files, at: Location, l: Location, active: set<Location>)
    requires WellFormed(files) && l in files && Below(at, l)
    ensures IsDirectory(files, at) && Resolve(files, [], at, active) == At(at)
  {
    AncestorsAreDirectories(files, l, |at|);
    assert [] + at == at;
    ResolveDown(files, [], at, active);
  }

  lemma AboveVersionsIsAboveLinks(root: Location, run: string, at: Location, n: string)
    requires at <= root + [VERSIONS]
    ensures Below(at, LinkDirectory(root, run) + [n])
  {
    assert at == (root + [VERSIONS])[..|at|] == (LinkDirectory(root, run) + [n])[..|at|];
  }

  lemma AboveLinkIsRejected(host: Host, files: Files, at: Location, l: Location, public: bool)
    requires Lawful(host) && WellFormed(files) && IsSymlink(files, l) && Below(at, l)
    ensures LeadTo(host, files, At(at), public).Rejected?
  {
    AncestorsAreDirectories(files, l, |at|);
    AcceptedExactly(host, files, at, public);
  }

  lemma CurrentNeverDelivers(host: Host, after: Files, root: Location, a: Adoption, n: string, digest: string)
    requires Lawful(host) && Installed(after, root, a) && n in ALL_NAMES
    ensures !Delivers(host, after, EntryLink(root, a, n), root + [CURRENT], digest)
  {
    ResolveToLinks(after, root, a, n);
    AboveLinkIsRejected(host, after, LinkDirectory(root, a.run), EntryLink(root, a, n), AllowsPublic(n));
  }

  /** A target above the new links, or replaced by the link to them, holds links and is refused. */
  lemma EnclosingNeverDelivers(host: Host, after: Files, root: Location, a: Adoption, n: string, digest: string)
    requires Lawful(host) && Installed(after, root, a) && n in ALL_NAMES && !Lasting(root, a.chosen[n])
    ensures !Delivers(host, after, EntryLink(root, a, n), a.chosen[n], digest)
  {
    if a.chosen[n] == root + [CURRENT] {
      CurrentNeverDelivers(host, after, root, a, n, digest);
    } else {
      AboveVersionsIsAboveLinks(root, a.run, a.chosen[n], n);
      ResolveAncestor(after, a.chosen[n], EntryLink(root, a, n), {EntryLink(root, a, n)});
      AboveLinkIsRejected(host, after, a.chosen[n], EntryLink(root, a, n), AllowsPublic(n));
    }
  }

  lemma ResolveToLinks(files: Files, root: Location, a: Adoption, n: string)
    requires Installed(files, root, a)
    ensures Resolve(files, [], root + [CURRENT], {EntryLink(root, a, n)}) == At(LinkDirectory(root, a.run))
  {
    NamesAreNames();
    RootHolds(files, root, CURRENT);
    var path, active := root + [CURRENT], {EntryLink(root, a, n)};
    assert path[..|root|] == root && path[|root|..] == [CURRENT] && [] + root == root;
    ResolveDownThen(files, [], path, |root|, active);
    assert |path| != |EntryLink(root, a, n)|;
    ResolveThroughLink(files, root, CURRENT, active);
    ResolveDown(files, root, [VERSIONS, a.run, CURRENT], active + {path});
  }

  /** Between the two replacements, a target is delivered exactly as it was at the start, or not at all. */
  lemma DeliveredBetween(host: Host, ready: Files, root: Location, a: Adoption, text: string, k: nat, n: string, digest: string)
    requires Lawful(host) && Replaceable(ready, root, a) && REPLACE_CURRENT <= k < STEPS
    requires n in ALL_NAMES && Admissible(host, ready, a.chosen[n], AllowsPublic(n))
    ensures WellFormed(CrashPoint(ready, root, a, text, k))
    ensures Delivers(host, CrashPoint(ready, root, a, text, k), EntryLink(root, a, n), a.chosen[n], digest) <==>
            Lasting(root, a.chosen[n]) && digest == DigestOf(host, ready, a.chosen[n])
  {
    var after, at := CrashPoint(ready, root, a, text, k), a.chosen[n];
    LatePointIsInstalled(ready, root, a, text, k);
    StepsTouch(ready, root, a, text, k);
    if !Lasting(root, at) {
      EnclosingNeverDelivers(host, after, root, a, n, digest);
    } else {
      if at == root + [MANIFEST] {
        ReplacedEntries(ready, root, a, text, k);
        ManifestAgrees(ready, after, root, a);
      } else {
        ApartAgrees(ready, after, root, a, at);
      }
      ChosenKept(host, ready, after, root, a, n);
    }
  }

  lemma ManifestAgrees(ready: Files, after: Files, root: Location, a: Adoption)
    requires AgreeOff(ready, after, root, a) && SameEntry(ready, after, root + [MANIFEST])
    ensures AgreeFrom(ready, after, root + [MANIFEST])
  {
    forall l | Below(root + [MANIFEST], l) ensures !Touched(root, a, l) {
      BelowManifest(root, a, l);
    }
  }

  lemma BelowManifest(root: Location, a: Adoption, l: Location)
    requires Below(root + [MANIFEST], l)
    ensures !Touched(root, a, l)
  {
    assert l[|root|] == (root + [MANIFEST])[|root|] == MANIFEST;
    assert VersionDirectory(root, a.run)[|root|] == VERSIONS;
  }

  /** The targets an adoption has accepted, by their digests at the start. */
  ghost predicate AcceptedTargets(host: Host, ready: Files, root: Location, a: Adoption) {
    && Replaceable(ready, root, a) && Private(ready, root, PRIVATE_DIRECTORY)
    && forall n :: n in ALL_NAMES ==> Admissible(host, ready, a.chosen[n], AllowsPublic(n))
  }

  lemma RootStaysPrivate(ready: Files, root: Location, a: Adoption, text: string, k: nat)
    requires Replaceable(ready, root, a) && Private(ready, root, PRIVATE_DIRECTORY) && k <= STEPS
    ensures Private(CrashPoint(ready, root, a, text, k), root, PRIVATE_DIRECTORY)
  {
    StepsTouch(ready, root, a, text, k);
    assert !Touched(root, a, root);
  }

  /**
    Between the two replacements verification succeeds exactly when the targets last and the old
    manifest, as it is found then, already names their digests.
  */
  lemma BetweenReplacements(host: Host, ready: Files, root: Location, a: Adoption, text: string, k: nat, expected: Option<string>)
    requires Lawful(host) && AcceptedTargets(host, ready, root, a) && REPLACE_CURRENT <= k < STEPS
    ensures var files := CrashPoint(ready, root, a, text, k);
            && WellFormed(files)
            && (Verify(host, files, root, expected).Ok? <==>
                && (expected.Some? ==> expected.value == a.run)
                && (forall n :: n in ALL_NAMES ==> Lasting(root, a.chosen[n]))
                && HasManifest(files, root)
                && Parse(files[ManifestAt(files, root).value].content) == Some(ChosenDigests(host, ready, a.chosen)))
  {
    var files := CrashPoint(ready, root, a, text, k);
    LatePointIsInstalled(ready, root, a, text, k);
    RootStaysPrivate(ready, root, a, text, k);
    VerifyInstalled(host, files, root, a, expected);
    if HasManifest(files, root) && Parse(files[ManifestAt(files, root).value].content).Some? {
      var parsed := Parse(files[ManifestAt(files, root).value].content).value;
      VerifyRecorded(host, files, root, a, parsed, expected);
      AllDeliveredBetween(host, ready, root, a, text, k, parsed);
    }
  }

  lemma AllDeliveredBetween(host: Host, ready: Files, root: Location, a: Adoption, text: string, k: nat, digests: map<string, string>)
    requires Lawful(host) && AcceptedTargets(host, ready, root, a) && REPLACE_CURRENT <= k < STEPS && digests.Keys == ALL_NAMES
    ensures WellFormed(CrashPoint(ready, root, a, text, k))
    ensures (forall n :: n in digests ==> Delivers(host, CrashPoint(ready, root, a, text, k), EntryLink(root, a, n), a.chosen[n], digests[n])) <==>
            (forall n :: n in ALL_NAMES ==> Lasting(root, a.chosen[n])) && digests == ChosenDigests(host, ready, a.chosen)
  {
    LatePointIsInstalled(ready, root, a, text, k);
    forall n | n in digests
      ensures Delivers(host, CrashPoint(ready, root, a, text, k), EntryLink(root, a, n), a.chosen[n], digests[n]) <==>
              Lasting(root, a.chosen[n]) && digests[n] == DigestOf(host, ready, a.chosen[n])
    {
      DeliveredBetween(host, ready, root, a, text, k, n, digests[n]);
    }
    ChosenDigestsAre(host, ready, a.chosen, digests);
  }

  lemma ChosenDigestsAre(host: Host, files: Files, chosen: map<string, Location>, digests: map<string, string>)
    requires Lawful(host) && WellFormed(files) && chosen.Keys == ALL_NAMES == digests.Keys
    requires forall n :: n in chosen ==> chosen[n] in files && !files[chosen[n]].Symlink?
    ensures digests == ChosenDigests(host, files, chosen) <==> forall n :: n in ALL_NAMES ==> digests[n] == DigestOf(host, files, chosen[n])
  {
    var d := ChosenDigests(host, files, chosen);
    if forall n :: n in ALL_NAMES ==> digests[n] == DigestOf(host, files, chosen[n]) {
      assert forall n :: n in digests ==> digests[n] == d[n];
    }
  }

  // ---- A fresh adoption -------------------------------------------------------------------------

  /** Every chosen target passed its check on the prepared root. */
  ghost predicate Checked(host: Host, ready: Files, root: Location, a: Adoption) {
    Ready(ready, root, a) && forall n :: n in ALL_NAMES ==> Admissible(host, ready, a.chosen[n], AllowsPublic(n))
  }

  /** The digests an adoption records, taken when its two directories have been made. */
  ghost function RecordedDigests(host: Host, ready: Files, root: Location, a: Adoption, text: string, k: nat): (digests: map<string, string>)
    requires Lawful(host) && Checked(host, ready, root, a) && k == 2
    ensures digests.Keys == ALL_NAMES && forall n :: n in digests ==> IsDigest(digests[n])
  {
    EarlyStepsGrow(ready, root, a, text, k);
    ChosenDigests(host, CrashPoint(ready, root, a, text, k), a.chosen)
  }

  /** Making the two directories changes the digest of no target but those that enclose them. */
  lemma RecordedDigestHolds(host: Host, ready: Files, root: Location, a: Adoption, text: string, k: nat, n: string)
    requires Lawful(host) && Checked(host, ready, root, a) && k == 2 && n in ALL_NAMES && Lasting(root, a.chosen[n])
    ensures RecordedDigests(host, ready, root, a, text, k)[n] == DigestOf(host, ready, a.chosen[n])
  {
    EarlyStepsGrow(ready, root, a, text, k);
    GrowthAgrees(ready, CrashPoint(ready, root, a, text, k), GrowthOf(root, a), a.chosen[n]);
    DigestIsLocal(host, ready, CrashPoint(ready, root, a, text, k), a.chosen[n]);
  }

  lemma FileDelivers(host: Host, files: Files, link: Location, at: Location, text: string, digest: string)
    requires Lawful(host) && WellFormed(files) && link != [] && Admissible(host, files, at, AllowsPublic(NameOf(link)))
    requires DigestOf(host, files, at) == host.sha(text)
    ensures Delivers(host, files, link, at, digest) <==> digest == host.sha(text)
  {
    assert [] + at == at;
    ResolveDown(files, [], at, {link});
    AcceptedExactly(host, files, at, AllowsPublic(NameOf(link)));
  }

  /** A target outlives its own adoption: it lasts, and if it is the old manifest, the new one hashes the same. */
  ghost predicate Survives(host: Host, ready: Files, root: Location, at: Location, text: string)
    requires Lawful(host) && WellFormed(ready) && at in ready && !ready[at].Symlink?
  {
    Lasting(root, at) && (at == root + [MANIFEST] ==> DigestOf(host, ready, at) == host.sha(text))
  }

  lemma DeliveredAtEnd(host: Host, ready: Files, root: Location, a: Adoption, text: string, k: nat, n: string, digest: string)
    requires Lawful(host) && AcceptedTargets(host, ready, root, a) && k == STEPS && !IsDirectory(ready, root + [MANIFEST]) && n in ALL_NAMES
    requires Lasting(root, a.chosen[n]) ==> digest == DigestOf(host, ready, a.chosen[n])
    ensures WellFormed(CrashPoint(ready, root, a, text, k))
    ensures Delivers(host, CrashPoint(ready, root, a, text, k), EntryLink(root, a, n), a.chosen[n], digest) <==> Survives(host, ready, root, a.chosen[n], text)
  {
    var after, at := CrashPoint(ready, root, a, text, k), a.chosen[n];
    LatePointIsInstalled(ready, root, a, text, k);
    if !Lasting(root, at) {
      EnclosingNeverDelivers(host, after, root, a, n, digest);
    } else if at == root + [MANIFEST] {
      ReplacedEntries(ready, root, a, text, k);
      FileDelivers(host, after, EntryLink(root, a, n), at, text, digest);
    } else {
      StepsTouch(ready, root, a, text, k);
      ApartAgrees(ready, after, root, a, at);
      ChosenKept(host, ready, after, root, a, n);
    }
  }

  lemma RecordedDelivers(host: Host, ready: Files, root: Location, a: Adoption, digests: map<string, string>, text: string, k: nat, n: string)
    requires Lawful(host) && AcceptedTargets(host, ready, root, a) && k == STEPS && !IsDirectory(ready, root + [MANIFEST]) && n in ALL_NAMES
    requires digests == RecordedDigests(host, ready, root, a, "", 2)
    ensures WellFormed(CrashPoint(ready, root, a, text, k))
    ensures Delivers(host, CrashPoint(ready, root, a, text, k), EntryLink(root, a, n), a.chosen[n], digests[n]) <==> Survives(host, ready, root, a.chosen[n], text)
  {
    if Lasting(root, a.chosen[n]) {
      RecordedDigestHolds(host, ready, root, a, "", 2, n);
    }
    DeliveredAtEnd(host, ready, root, a, text, k, n, digests[n]);
  }

  lemma AllDeliveredAtEnd(host: Host, ready: Files, root: Location, a: Adoption, digests: map<string, string>, text: string, k: nat, files: Files)
    requires Lawful(host) && AcceptedTargets(host, ready, root, a) && k == STEPS && !IsDirectory(ready, root + [MANIFEST])
    requires digests == RecordedDigests(host, ready, root, a, "", 2) && files == CrashPoint(ready, root, a, text, k) && WellFormed(files)
    ensures (forall n :: n in digests ==> Delivers(host, files, EntryLink(root, a, n), a.chosen[n], digests[n])) <==>
            (forall n :: n in ALL_NAMES ==> Survives(host, ready, root, a.chosen[n], text))
  {
    forall n | n in ALL_NAMES
      ensures Delivers(host, files, EntryLink(root, a, n), a.chosen[n], digests[n]) <==> Survives(host, ready, root, a.chosen[n], text)
    {
      RecordedDelivers(host, ready, root, a, digests, text, k, n);
    }
  }

  lemma FinalRegistry(host: Host, ready: Files, root: Location, a: Adoption, text: string, k: nat) returns (files: Files)
    requires AcceptedTargets(host, ready, root, a) && k == STEPS && !IsDirectory(ready, root + [MANIFEST])
    ensures files == CrashPoint(ready, root, a, text, k) && Installed(files, root, a) && Private(files, root, PRIVATE_DIRECTORY)
    ensures root + [MANIFEST] in files && files[root + [MANIFEST]] == File(true, PRIVATE_FILE, text)
  {
    files := CrashPoint(ready, root, a, text, k);
    LatePointIsInstalled(ready, root, a, text, k);
    ReplacedEntries(ready, root, a, text, k);
    RootStaysPrivate(ready, root, a, text, k);
  }

  /**
    The verification that ends an adoption succeeds exactly when every target outlives the adoption
    itself; then it reports the new run and its five entries.
  */
  lemma FreshAdoptionVerifies(host: Host, ready: Files, root: Location, a: Adoption, digests: map<string, string>, k: nat, expected: Option<string>)
    requires Lawful(host) && AcceptedTargets(host, ready, root, a) && k == STEPS && !IsDirectory(ready, root + [MANIFEST])
    requires digests == RecordedDigests(host, ready, root, a, "", 2)
    ensures var text := Print(NAMES, digests);
            var files := CrashPoint(ready, root, a, text, k);
            && WellFormed(files)
            && (Verify(host, files, root, expected).Ok? <==>
                && (expected.Some? ==> expected.value == a.run)
                && forall n :: n in ALL_NAMES ==> Survives(host, ready, root, a.chosen[n], text))
            && (Verify(host, files, root, expected).Ok? ==> Verify(host, files, root, expected).value == Report(a.run, 5, host.sha(text)))
  {
    var text := Print(NAMES, digests);
    var files := FinalRegistry(host, ready, root, a, text, k);
    AllDeliveredAtEnd(host, ready, root, a, digests, text, k, files);
    AfterAdoption(host, files, root, a, digests, expected);
  }
}
