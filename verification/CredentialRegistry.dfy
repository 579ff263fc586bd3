/**
  Adoption and verification of the current credential registry,
  tools/update_credential_registry_current.py, on a file system with links. File operations are
  atomic; an adoption may be cut short between two of them by a crash or by an error.
*/
module CredentialRegistry {
  import opened Prelude
  import opened Text
  import opened FileSystem
  import opened Manifest
  import opened CredentialTree

  /** Hashing, the order in which a tree is listed, and which file names and contents are sensitive. */
  datatype Host = Host(
    sha: string -> string,
    listing: (Files, Location) -> seq<Filed<Node>>,
    sensitive: (string, string) -> bool)

  datatype RegistryError =
    | RunIdInvalid | CommitInvalid | TargetSetInvalid | RootInvalid | RootPermissionsInvalid | RunExists
    | PrivatePathRequired | TargetInvalid | TargetPermissionsInvalid
    | CurrentMissing | ManifestPermissionsInvalid | CurrentInvalid | CurrentPermissionsInvalid | RunIdMismatch
    | ManifestInvalid | HashMismatch | OperationFailed
    | LinkLoop // what `Path.resolve()` raises on a link that leads back to itself

  datatype Report = Report(run: string, entryCount: nat, manifestDigest: string)

  const CURRENT := "current"
  const MANIFEST := "current.sha256"
  const VERSIONS := "versions"
  const PRIVATE := ".private"

  /** 0o700 and 0o600 */
  const PRIVATE_DIRECTORY: nat := 0x1C0
  const PRIVATE_FILE: nat := 0x180

  const ALL_NAMES := set n | n in NAMES

  predicate Lists(files: Files, at: Location, x: Filed<Node>) {
    x.path != [] && at + x.path in files && x.value == files[at + x.path]
  }

  /** What the hash and the listing guarantee: digests are digests, and each entry is listed once. */
  ghost predicate Lawful(host: Host) {
    && IsHash(host.sha)
    && forall files, at :: Keyed(multiset(host.listing(files, at))) && forall x :: x in host.listing(files, at) <==> Lists(files, at, x)
  }

  // ---- Targets ----------------------------------------------------------------------------------

  predicate AllowsPublic(name: string) {
    name == "nats-authority-source"
  }

  /** mode & 0o077 == 0 and mode & 0o022 == 0 */
  predicate Unshared(mode: nat) {
    mode % 64 == 0
  }

  predicate NotSharedForWriting(mode: nat) {
    mode / 16 % 2 == 0 && mode / 2 % 2 == 0
  }

  /** What is wrong with an entry below a target, if anything. */
  function Offence(host: Host, name: string, node: Node, public: bool): Option<RegistryError> {
    match node
    case Symlink(_, _) => Some(TargetInvalid)
    case Directory(owned, mode) => if owned && Unshared(mode) then None else Some(TargetPermissionsInvalid)
    case File(owned, mode, content) =>
      if owned && if !public || host.sensitive(name, content) then Unshared(mode) else NotSharedForWriting(mode) then None
      else Some(TargetPermissionsInvalid)
  }

  /** The first offence in a listing. */
  function FirstOffence(host: Host, nodes: seq<Filed<Node>>, public: bool): Option<RegistryError> {
    if nodes == [] then None
    else
      var first := Offence(host, NameOf(nodes[0].path), nodes[0].value, public);
      if first.Some? then first else FirstOffence(host, nodes[1..], public)
  }

  /** `_validate_target`: below a `.private`, there, owned, unshared, and so is everything in it, links excluded. */
  function TargetError(host: Host, files: Files, at: Location, public: bool): Option<RegistryError> {
    if IsSymlink(files, at) then Some(TargetInvalid)
    else if PRIVATE !in at then Some(PrivatePathRequired)
    else if at !in files then Some(TargetInvalid)
    else if !files[at].owned || !Unshared(files[at].mode) then Some(TargetPermissionsInvalid)
    else if files[at].File? then None
    else FirstOffence(host, Sort(host.listing(files, at)), public)
  }

  lemma SortedListing(host: Host, files: Files, at: Location)
    requires Lawful(host)
    ensures forall x :: x in Sort(host.listing(files, at)) <==> Lists(files, at, x)
  {
    forall x ensures x in Sort(host.listing(files, at)) <==> Lists(files, at, x) {
      SortKeepsMembers(host.listing(files, at), x);
    }
  }

  /** Nothing is wrong with a target: it may be adopted, and passes when verified. */
  predicate Admissible(host: Host, files: Files, at: Location, public: bool) {
    && PRIVATE in at && at in files && !files[at].Symlink?
    && files[at].owned && Unshared(files[at].mode)
    && (files[at].Directory? ==> forall l :: l in files && Below(at, l) ==> Offence(host, NameOf(l), files[l], public).None?)
  }

  lemma {:induction false} NoOffence(host: Host, nodes: seq<Filed<Node>>, public: bool)
    ensures FirstOffence(host, nodes, public).None? <==> forall x :: x in nodes ==> Offence(host, NameOf(x.path), x.value, public).None?
    decreases |nodes|
  {
    if nodes != [] {
      NoOffence(host, nodes[1..], public);
      forall x ensures x in nodes <==> x == nodes[0] || x in nodes[1..] {
      }
    }
  }

  lemma ListedIsBelow(files: Files, at: Location, x: Filed<Node>)
    requires Lists(files, at, x)
    ensures Below(at, at + x.path) && NameOf(at + x.path) == NameOf(x.path)
  {
  }

  lemma BelowIsListed(files: Files, at: Location, l: Location)
    requires l in files && Below(at, l)
    ensures Lists(files, at, Filed(l[|at|..], files[l])) && NameOf(l[|at|..]) == NameOf(l)
  {
    assert l == at + l[|at|..];
  }

  /** A target is accepted exactly when it is admissible. */
  lemma AcceptedExactly(host: Host, files: Files, at: Location, public: bool)
    requires Lawful(host)
    ensures TargetError(host, files, at, public).None? <==> Admissible(host, files, at, public)
  {
    if IsDirectory(files, at) {
      ListingExactly(host, files, at, public);
    }
  }

  lemma ListingExactly(host: Host, files: Files, at: Location, public: bool)
    requires Lawful(host)
    ensures FirstOffence(host, Sort(host.listing(files, at)), public).None? <==>
            forall l :: l in files && Below(at, l) ==> Offence(host, NameOf(l), files[l], public).None?
  {
    var nodes := Sort(host.listing(files, at));
    SortedListing(host, files, at);
    NoOffence(host, nodes, public);
    forall l | l in files && Below(at, l)
      ensures Filed(l[|at|..], files[l]) in nodes && NameOf(l[|at|..]) == NameOf(l)
    {
      BelowIsListed(files, at, l);
    }
    forall x | x in nodes ensures Below(at, at + x.path) && NameOf(at + x.path) == NameOf(x.path) && at + x.path in files && files[at + x.path] == x.value {
      ListedIsBelow(files, at, x);
    }
  }

  /** A listing as the hash sees it. */
  function ItemsOf(nodes: seq<Filed<Node>>): seq<Filed<Item>> {
    if nodes == [] then []
    else
      match nodes[0].value
      case Directory(_, mode) => [Filed(nodes[0].path, DirectoryItem(mode))] + ItemsOf(nodes[1..])
      case File(_, mode, content) => [Filed(nodes[0].path, FileItem(mode, content))] + ItemsOf(nodes[1..])
      case Symlink(_, _) => ItemsOf(nodes[1..])
  }

  predicate IsItem(node: Node, item: Item) {
    match node
    case Directory(_, mode) => item == DirectoryItem(mode)
    case File(_, mode, content) => item == FileItem(mode, content)
    case Symlink(_, _) => false
  }

  ghost predicate HasItem(nodes: seq<Filed<Node>>, x: Filed<Item>) {
    exists y :: y in nodes && y.path == x.path && IsItem(y.value, x.value)
  }

  lemma {:induction false} ItemsAreNodes(nodes: seq<Filed<Node>>, x: Filed<Item>)
    ensures x in ItemsOf(nodes) <==> HasItem(nodes, x)
    decreases |nodes|
  {
    if nodes != [] {
      ItemsAreNodes(nodes[1..], x);
      assert forall y :: y in nodes <==> y == nodes[0] || y in nodes[1..];
    }
  }

  lemma {:induction false} ItemsAreKeyed(nodes: seq<Filed<Node>>)
    requires Keyed(multiset(nodes))
    ensures Keyed(multiset(ItemsOf(nodes)))
    decreases |nodes|
  {
    if nodes != [] {
      KeyedTail(nodes);
      ItemsAreKeyed(nodes[1..]);
      var rest := ItemsOf(nodes[1..]);
      forall x: Filed<Item> | x in multiset(rest) ensures x.path != nodes[0].path {
        ItemsAreNodes(nodes[1..], x);
      }
    }
  }

  function TargetAt(host: Host, files: Files, at: Location): Target
    requires at in files && !files[at].Symlink?
  {
    if files[at].File? then SingleFile(files[at].content) else Tree(ItemsOf(host.listing(files, at)))
  }

  lemma ListedTreeIsValid(host: Host, files: Files, at: Location)
    requires Lawful(host) && WellFormed(files)
    ensures ValidTree(ItemsOf(host.listing(files, at)))
  {
    var items := ItemsOf(host.listing(files, at));
    ItemsAreKeyed(host.listing(files, at));
    forall i | 0 <= i < |items|
      ensures items[i].path != [] && items[i].value.mode < 0x1000
      ensures forall j :: 0 <= j < |items[i].path| ==> '/' !in items[i].path[j] && '\0' !in items[i].path[j]
    {
      ItemsAreNodes(host.listing(files, at), items[i]);
      ListedItemIsValid(host, files, at, items[i]);
    }
  }

  lemma ListedItemIsValid(host: Host, files: Files, at: Location, x: Filed<Item>)
    requires Lawful(host) && WellFormed(files) && HasItem(host.listing(files, at), x)
    ensures x.path != [] && x.value.mode < 0x1000
    ensures forall j :: 0 <= j < |x.path| ==> '/' !in x.path[j] && '\0' !in x.path[j]
  {
    var y :| y in host.listing(files, at) && y.path == x.path && IsItem(y.value, x.value);
    assert Lists(files, at, y);
    var l := at + y.path;
    forall j | 0 <= j < |x.path| ensures '/' !in x.path[j] && '\0' !in x.path[j] {
      assert IsName(l[|at| + j]);
    }
  }

  ghost function DigestOf(host: Host, files: Files, at: Location): (digest: string)
    requires Lawful(host) && WellFormed(files) && at in files && !files[at].Symlink?
    ensures IsDigest(digest)
  {
    ListedTreeIsValid(host, files, at);
    host.sha(ContentBytes(host.sha, TargetAt(host, files, at)))
  }

  // ---- Verification -----------------------------------------------------------------------------

  function CurrentAt(files: Files, root: Location): Option<Location> {
    Walk(files, root, [CURRENT], FOLLOWS)
  }

  function ManifestAt(files: Files, root: Location): Option<Location> {
    Walk(files, root, [MANIFEST], FOLLOWS)
  }

  function VersionsAt(files: Files, root: Location): Resolution {
    Resolve(files, root, [VERSIONS], {})
  }

  /** `current` is a link that leads to a directory, and there is a manifest. */
  predicate Present(files: Files, root: Location) {
    && IsSymlink(files, root + [CURRENT])
    && CurrentAt(files, root).Some? && IsDirectory(files, CurrentAt(files, root).value)
    && ManifestAt(files, root).Some? && IsFile(files, ManifestAt(files, root).value)
  }

  /** `current.resolve()` is where the kernel has found the directory. */
  lemma CurrentResolves(files: Files, root: Location)
    requires Present(files, root)
    ensures Resolve(files, root, [CURRENT], {}) == At(CurrentAt(files, root).value)
  {
    ResolutionFollowsWalk(files, root, [CURRENT], FOLLOWS, {});
  }

  predicate Private(files: Files, at: Location, mode: nat) {
    at in files && !files[at].Symlink? && files[at].owned && files[at].mode == mode
  }

  function ChildNames(files: Files, at: Location): set<string> {
    set l | l in files && |l| == |at| + 1 && l[..|at|] == at :: l[|at|]
  }

  lemma ChildExists(files: Files, at: Location, name: string)
    requires name in ChildNames(files, at)
    ensures at + [name] in files
  {
    var l :| l in files && |l| == |at| + 1 && l[..|at|] == at && l[|at|] == name;
    assert l == at + [name];
  }

  /** Everything checked before the manifest is read, in order. */
  function CheckDirectory(files: Files, root: Location, expected: Option<string>): Option<RegistryError> {
    if !Present(files, root) then Some(CurrentMissing)
    else if !Private(files, root, PRIVATE_DIRECTORY) then Some(RootPermissionsInvalid)
    else if !Private(files, ManifestAt(files, root).value, PRIVATE_FILE) then Some(ManifestPermissionsInvalid)
    else
      var dir := CurrentAt(files, root).value;
      if VersionsAt(files, root).Loop? then Some(LinkLoop)
      else if |dir| < 2 || dir[..|dir| - 2] != VersionsAt(files, root).location then Some(CurrentInvalid)
      else if !Private(files, dir, PRIVATE_DIRECTORY) then Some(CurrentPermissionsInvalid)
      else if expected.Some? && dir[|dir| - 2] != expected.value then Some(RunIdMismatch)
      else if ChildNames(files, dir) != ALL_NAMES then Some(CurrentInvalid)
      else None
  }

  /** What an entry's link leads to: something refused, or an acceptable target with its digest. */
  datatype Lead = NoLink | Rejected(error: RegistryError) | Accepted(digest: string)

  ghost function LeadOf(host: Host, files: Files, dir: Location, name: string): (lead: Lead)
    requires Lawful(host) && WellFormed(files)
    ensures lead.Accepted? ==> IsDigest(lead.digest)
  {
    if !IsSymlink(files, dir + [name]) then NoLink else LeadTo(host, files, Resolve(files, dir, [name], {}), AllowsPublic(name))
  }

  /** `_validate_target` and `_content_digest` on what a link resolves to. */
  ghost function LeadTo(host: Host, files: Files, at: Resolution, public: bool): (lead: Lead)
    requires Lawful(host) && WellFormed(files)
    ensures !lead.NoLink? && (lead.Accepted? ==> IsDigest(lead.digest))
  {
    match at
    case Loop => Rejected(LinkLoop)
    case At(l) =>
      AcceptedExactly(host, files, l, public);
      var refused := TargetError(host, files, l, public);
      if refused.Some? then Rejected(refused.value) else Accepted(DigestOf(host, files, l))
  }

  /** The verdict on an entry, by the recorded digest. */
  function Judge(lead: Lead, recorded: string): Option<RegistryError> {
    match lead
    case NoLink => Some(CurrentInvalid)
    case Rejected(error) => Some(error)
    case Accepted(digest) => if digest != recorded then Some(HashMismatch) else None
  }

  /** The checks on one entry: it is a link, to an acceptable target, of the recorded content. */
  ghost function CheckEntry(host: Host, files: Files, dir: Location, parsed: map<string, string>, name: string): Option<RegistryError>
    requires Lawful(host) && WellFormed(files) && name in parsed
  {
    Judge(LeadOf(host, files, dir, name), parsed[name])
  }

  ghost function CheckEntries(host: Host, files: Files, dir: Location, parsed: map<string, string>, names: seq<string>): Option<RegistryError>
    requires Lawful(host) && WellFormed(files) && forall i :: 0 <= i < |names| ==> names[i] in parsed
  {
    if names == [] then None
    else
      var first := CheckEntry(host, files, dir, parsed, names[0]);
      if first.Some? then first else CheckEntries(host, files, dir, parsed, names[1..])
  }

  /** The manifest against the entries of the current version. */
  ghost function CheckContents(host: Host, files: Files, dir: Location, text: string): Result<Report, RegistryError>
    requires Lawful(host) && WellFormed(files) && |dir| >= 2
  {
    match Parse(text)
    case None => Err(ManifestInvalid)
    case Some(parsed) =>
      match CheckEntries(host, files, dir, parsed, NAMES)
      case Some(e) => Err(e)
      case None => Ok(Report(dir[|dir| - 2], |parsed|, host.sha(text)))
  }

  function ManifestText(files: Files, root: Location): string
    requires Present(files, root)
  {
    files[ManifestAt(files, root).value].content
  }

  /** `_verify_current` */
  ghost function Verify(host: Host, files: Files, root: Location, expected: Option<string>): Result<Report, RegistryError>
    requires Lawful(host) && WellFormed(files)
  {
    match CheckDirectory(files, root, expected)
    case Some(e) => Err(e)
    case None => CheckContents(host, files, CurrentAt(files, root).value, ManifestText(files, root))
  }

  /** Every entry's link leads to an acceptable target. */
  ghost predicate Complete(host: Host, files: Files, dir: Location)
    requires Lawful(host) && WellFormed(files)
  {
    forall n :: n in ALL_NAMES ==> LeadOf(host, files, dir, n).Accepted?
  }

  /** The digests of what the links now lead to. */
  ghost function Digests(host: Host, files: Files, dir: Location): (digests: map<string, string>)
    requires Lawful(host) && WellFormed(files) && Complete(host, files, dir)
    ensures digests.Keys == ALL_NAMES && forall n :: n in digests ==> IsDigest(digests[n])
  {
    map n | n in ALL_NAMES :: LeadOf(host, files, dir, n).digest
  }

  lemma {:induction false} EntriesAgree(host: Host, files: Files, dir: Location, parsed: map<string, string>, names: seq<string>)
    requires Lawful(host) && WellFormed(files) && forall i :: 0 <= i < |names| ==> names[i] in parsed
    ensures CheckEntries(host, files, dir, parsed, names).None? <==>
            forall n :: n in names ==> CheckEntry(host, files, dir, parsed, n).None?
    decreases |names|
  {
    if names != [] {
      EntriesAgree(host, files, dir, parsed, names[1..]);
      forall n ensures n in names <==> n == names[0] || n in names[1..] {
      }
    }
  }

  lemma ChecksMeanDigests(host: Host, files: Files, dir: Location, parsed: map<string, string>, names: seq<string>)
    requires Lawful(host) && WellFormed(files) && parsed.Keys == ALL_NAMES && forall n :: n in names <==> n in parsed
    ensures CheckEntries(host, files, dir, parsed, names).None? <==> Complete(host, files, dir) && parsed == Digests(host, files, dir)
  {
    EntriesAgree(host, files, dir, parsed, names);
    DigestsAre(host, files, dir, parsed);
  }

  lemma DigestsAre(host: Host, files: Files, dir: Location, digests: map<string, string>)
    requires Lawful(host) && WellFormed(files) && digests.Keys == ALL_NAMES
    ensures Complete(host, files, dir) && digests == Digests(host, files, dir) <==>
            forall n :: n in digests ==> LeadOf(host, files, dir, n) == Accepted(digests[n])
  {
    if Complete(host, files, dir) {
      assert Digests(host, files, dir).Keys == digests.Keys;
    }
  }

  lemma ContentsExactly(host: Host, files: Files, dir: Location, text: string)
    requires Lawful(host) && WellFormed(files) && |dir| >= 2
    ensures CheckContents(host, files, dir, text).Ok? <==> Complete(host, files, dir) && Parse(text) == Some(Digests(host, files, dir))
    ensures CheckContents(host, files, dir, text).Ok? ==> CheckContents(host, files, dir, text).value == Report(dir[|dir| - 2], 5, host.sha(text))
  {
    var parsed := Parse(text);
    if parsed.Some? {
      ChecksMeanDigests(host, files, dir, parsed.value, NAMES);
      FiveNames();
    }
  }

  lemma FiveNames()
    ensures |ALL_NAMES| == 5
  {
    assert ALL_NAMES == {NAMES[0], NAMES[1], NAMES[2], NAMES[3], NAMES[4]};
  }

  /**
    Verification succeeds exactly when the links, owners and modes are as demanded, the current
    version is that of the expected run and complete, and the manifest reads as the digests of what
    its links lead to now.
  */
  lemma VerifyExactly(host: Host, files: Files, root: Location, expected: Option<string>)
    requires Lawful(host) && WellFormed(files)
    ensures Verify(host, files, root, expected).Ok? <==>
            && Present(files, root) && Private(files, root, PRIVATE_DIRECTORY)
            && (var dir, manifest := CurrentAt(files, root).value, ManifestAt(files, root).value;
                && Private(files, manifest, PRIVATE_FILE) && Private(files, dir, PRIVATE_DIRECTORY)
                && VersionsAt(files, root).At?
                && (exists run, leaf :: dir == VersionsAt(files, root).location + [run, leaf] && (expected.Some? ==> run == expected.value))
                && ChildNames(files, dir) == ALL_NAMES && Complete(host, files, dir)
                && Parse(files[manifest].content) == Some(Digests(host, files, dir)))
    ensures Verify(host, files, root, expected).Ok? ==>
              var dir := CurrentAt(files, root).value;
              Verify(host, files, root, expected).value == Report(dir[|dir| - 2], 5, host.sha(ManifestText(files, root)))
  {
    DirectoryExactly(files, root, expected);
    if CheckDirectory(files, root, expected).None? {
      ContentsExactly(host, files, CurrentAt(files, root).value, ManifestText(files, root));
    }
  }

  /** The first half of verification: links, owners, modes, the run, and the names in the link directory. */
  lemma DirectoryExactly(files: Files, root: Location, expected: Option<string>)
    ensures CheckDirectory(files, root, expected).None? <==>
            && Present(files, root) && Private(files, root, PRIVATE_DIRECTORY)
            && (var dir, manifest := CurrentAt(files, root).value, ManifestAt(files, root).value;
                && Private(files, manifest, PRIVATE_FILE) && Private(files, dir, PRIVATE_DIRECTORY)
                && VersionsAt(files, root).At?
                && (exists run, leaf :: dir == VersionsAt(files, root).location + [run, leaf] && (expected.Some? ==> run == expected.value))
                && ChildNames(files, dir) == ALL_NAMES)
  {
    if Present(files, root) && VersionsAt(files, root).At? {
      GrandchildForm(CurrentAt(files, root).value, VersionsAt(files, root).location);
    }
  }

  lemma GrandchildForm(dir: Location, at: Location)
    ensures |dir| >= 2 && dir[..|dir| - 2] == at <==> exists run, leaf :: dir == at + [run, leaf]
    ensures forall run, leaf :: dir == at + [run, leaf] ==> run == dir[|dir| - 2]
  {
    if |dir| >= 2 && dir[..|dir| - 2] == at {
      assert dir == at + [dir[|dir| - 2], dir[|dir| - 1]];
    }
  }

  // ---- Adoption ---------------------------------------------------------------------------------

  /** ^[a-z0-9][a-z0-9-]{2,62}$ */
  predicate IsRunId(s: string) {
    3 <= |s| <= 63 && s[0] != '-' && forall i :: 0 <= i < |s| ==> 'a' <= s[i] <= 'z' || '0' <= s[i] <= '9' || s[i] == '-'
  }

  /** ^[0-9a-f]{40,64}$ */
  predicate IsCommit(s: string) {
    40 <= |s| <= 64 && forall i :: 0 <= i < |s| ==> '0' <= s[i] <= '9' || 'a' <= s[i] <= 'f'
  }

  /** What one adoption is given, with the two random names it stages under. */
  datatype Adoption = Adoption(run: string, chosen: map<string, Location>, stagedLink: string, stagedManifest: string)

  /** The checks made before anything is touched. */
  function RefusedRequest(run: string, commit: string, chosen: map<string, Location>): Option<RegistryError> {
    if !IsRunId(run) then Some(RunIdInvalid)
    else if !IsCommit(commit) then Some(CommitInvalid)
    else if chosen.Keys != ALL_NAMES then Some(TargetSetInvalid)
    else None
  }

  /** `mkdir(mode, parents=True, exist_ok=True)` */
  function MakeDirectories(files: Files, at: Location, mode: nat): Files
    decreases |at|
  {
    if at in files || at == [] then files
    else MakeDirectories(files, Parent(at), 0x1ED)[at := Directory(true, mode)]
  }

  /** `_registry_root`: make the root and its `versions` where missing, and check both. */
  function Prepare(files: Files, root: Location): (Files, Option<RegistryError>) {
    if IsSymlink(files, root) then (files, Some(RootInvalid))
    else if exists i :: 0 <= i <= |root| && IsFile(files, root[..i]) then (files, Some(OperationFailed))
    else
      var made := MakeDirectories(files, root, PRIVATE_DIRECTORY);
      var versions := root + [VERSIONS];
      if !Private(made, root, PRIVATE_DIRECTORY) then (made, Some(RootPermissionsInvalid))
      else if IsFile(made, versions) then (made, Some(OperationFailed))
      else
        var ready := if versions in made then made else made[versions := Directory(true, PRIVATE_DIRECTORY)];
        (ready, if Private(ready, versions, PRIVATE_DIRECTORY) then None else Some(RootPermissionsInvalid))
  }

  function VersionDirectory(root: Location, run: string): Location {
    root + [VERSIONS, run]
  }

  function LinkDirectory(root: Location, run: string): Location {
    root + [VERSIONS, run, CURRENT]
  }

  /** The first refusal among the chosen targets, in the order they are given. */
  function FirstRefusal(host: Host, files: Files, chosen: map<string, Location>, names: seq<string>): Option<RegistryError>
    requires forall n :: n in names ==> n in chosen
  {
    if names == [] then None
    else
      var first := TargetError(host, files, chosen[names[0]], AllowsPublic(names[0]));
      if first.Some? then first else FirstRefusal(host, files, chosen, names[1..])
  }

  lemma {:induction false} NothingRefusedExactly(host: Host, files: Files, chosen: map<string, Location>, names: seq<string>)
    requires Lawful(host) && forall n :: n in names ==> n in chosen
    ensures FirstRefusal(host, files, chosen, names).None? <==> forall n :: n in names ==> Admissible(host, files, chosen[n], AllowsPublic(n))
    decreases |names|
  {
    if names != [] {
      AcceptedExactly(host, files, chosen[names[0]], AllowsPublic(names[0]));
      NothingRefusedExactly(host, files, chosen, names[1..]);
      assert forall n :: n in names <==> n == names[0] || n in names[1..];
    }
  }

  /** The checks made on a prepared root. */
  function RefusedTargets(host: Host, files: Files, root: Location, a: Adoption): Option<RegistryError>
    requires a.chosen.Keys == ALL_NAMES
  {
    var refused := FirstRefusal(host, files, a.chosen, NAMES);
    if refused.Some? then refused
    else if VersionDirectory(root, a.run) in files then Some(RunExists)
    else None
  }

  const STEPS: nat := 11
  const REPLACE_CURRENT: nat := 9

  /**
    The eleven changes: the version directory, its link directory, five links, the staged current
    link and its move over `current`, the staged manifest and its move over the manifest.
  */
  function Step(root: Location, a: Adoption, text: string, i: nat): Change
    requires a.chosen.Keys == ALL_NAMES && i < STEPS
  {
    if i == 0 then Add(VersionDirectory(root, a.run), Directory(true, PRIVATE_DIRECTORY))
    else if i == 1 then Add(LinkDirectory(root, a.run), Directory(true, PRIVATE_DIRECTORY))
    else if i < 7 then Add(LinkDirectory(root, a.run) + [NAMES[i - 2]], Symlink(true, a.chosen[NAMES[i - 2]]))
    else if i == 7 then Add(root + [a.stagedLink], Symlink(false, [VERSIONS, a.run, CURRENT]))
    else if i == 8 then Move(root + [a.stagedLink], root + [CURRENT])
    else if i == 9 then Add(root + [a.stagedManifest], File(true, PRIVATE_FILE, text))
    else Move(root + [a.stagedManifest], root + [MANIFEST])
  }

  /** The file system after k of the changes. */
  function CrashPoint(files: Files, root: Location, a: Adoption, text: string, k: nat): Files
    requires a.chosen.Keys == ALL_NAMES && k <= STEPS
  {
    if k == 0 then files else Perform(CrashPoint(files, root, a, text, k - 1), Step(root, a, text, k - 1))
  }

  /** The digests of the chosen targets. */
  ghost function ChosenDigests(host: Host, files: Files, chosen: map<string, Location>): (digests: map<string, string>)
    requires Lawful(host) && WellFormed(files) && chosen.Keys == ALL_NAMES
    requires forall n :: n in chosen ==> chosen[n] in files && !files[chosen[n]].Symlink?
    ensures digests.Keys == ALL_NAMES && forall n :: n in digests ==> IsDigest(digests[n])
  {
    map n | n in chosen :: DigestOf(host, files, chosen[n])
  }
}
