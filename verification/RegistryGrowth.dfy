/** What verification answers while an adoption only adds names, before it replaces `current`. */
module RegistryGrowth {
  import opened Prelude
  import opened Text
  import opened FileSystem
  import opened Manifest
  import opened CredentialTree
  import opened CredentialRegistry

  // ---- Growth -----------------------------------------------------------------------------------

  /** What may be added: the root and `versions`, one version with what it holds, and staged names in the root. */
  datatype Growth = Growth(root: Location, run: string, staged: set<string>)

  predicate Created(g: Growth, l: Location) {
    || l <= g.root + [VERSIONS]
    || l == VersionDirectory(g.root, g.run) || Below(VersionDirectory(g.root, g.run), l)
    || (|l| == |g.root| + 1 && l[..|g.root|] == g.root && l[|g.root|] in g.staged)
  }

  /** Only such names were added. */
  ghost predicate Grown(before: Files, after: Files, g: Growth) {
    && WellFormed(before) && WellFormed(after) && Extends(before, after)
    && VersionDirectory(g.root, g.run) !in before
    && !IsSymlink(before, g.root + [VERSIONS]) && !IsSymlink(after, g.root + [VERSIONS])
    && forall l :: l in after ==> l in before || Created(g, l)
  }

  lemma AboveCreated(g: Growth, at: Location, l: Location)
    requires Created(g, l) && Below(at, l)
    ensures at <= g.root + [VERSIONS] || at == VersionDirectory(g.root, g.run) || Below(VersionDirectory(g.root, g.run), at)
  {
    if |at| <= |g.root| + 1 && (l == VersionDirectory(g.root, g.run) || Below(VersionDirectory(g.root, g.run), l)) {
      assert at == VersionDirectory(g.root, g.run)[..|at|] == (g.root + [VERSIONS])[..|at|];
    } else if |l| == |g.root| + 1 {
      assert at == l[..|g.root|][..|at|];
    }
  }

  lemma NothingNewBelow(before: Files, after: Files, g: Growth, at: Location, l: Location)
    requires Grown(before, after, g) && at in before && !(at <= g.root + [VERSIONS]) && l in after && Below(at, l)
    ensures l in before
  {
    if l !in before {
      AboveCreated(g, at, l);
      NothingBelowMissing(before, VersionDirectory(g.root, g.run), at);
    }
  }

  /** Two file systems agree at a location and on everything below it. */
  ghost predicate AgreeFrom(x: Files, y: Files, at: Location) {
    forall l :: l == at || Below(at, l) ==> (l in x <==> l in y) && (l in x ==> x[l] == y[l])
  }

  lemma ListingIsLocal(host: Host, x: Files, y: Files, at: Location, node: Filed<Node>)
    requires Lawful(host) && AgreeFrom(x, y, at)
    ensures node in host.listing(x, at) <==> node in host.listing(y, at)
  {
    assert node in host.listing(x, at) <==> Lists(x, at, node);
    assert node in host.listing(y, at) <==> Lists(y, at, node);
    if node.path != [] {
      assert Below(at, at + node.path);
    }
  }

  lemma ItemsFollowNodes(a: seq<Filed<Node>>, b: seq<Filed<Node>>, x: Filed<Item>)
    requires forall node :: node in a <==> node in b
    ensures x in ItemsOf(a) <==> x in ItemsOf(b)
  {
    ItemsAreNodes(a, x);
    ItemsAreNodes(b, x);
  }

  lemma SameListing(host: Host, x: Files, y: Files, at: Location)
    requires Lawful(host) && AgreeFrom(x, y, at)
    ensures Sort(host.listing(x, at)) == Sort(host.listing(y, at))
    ensures forall item :: item in ItemsOf(host.listing(x, at)) <==> item in ItemsOf(host.listing(y, at))
  {
    var a, b := host.listing(x, at), host.listing(y, at);
    forall node ensures node in a <==> node in b {
      ListingIsLocal(host, x, y, at, node);
    }
    SortDependsOnMembers(a, b);
    forall item ensures item in ItemsOf(a) <==> item in ItemsOf(b) {
      ItemsFollowNodes(a, b, item);
    }
  }

  lemma ErrorIsLocal(host: Host, x: Files, y: Files, at: Location, public: bool)
    requires Lawful(host) && AgreeFrom(x, y, at)
    ensures TargetError(host, x, at, public) == TargetError(host, y, at, public)
  {
    SameListing(host, x, y, at);
    assert at in x <==> at in y;
  }

  lemma DigestIsLocal(host: Host, x: Files, y: Files, at: Location)
    requires Lawful(host) && WellFormed(x) && WellFormed(y) && AgreeFrom(x, y, at) && at in x && !x[at].Symlink?
    ensures DigestOf(host, x, at) == DigestOf(host, y, at)
  {
    assert at in y && y[at] == x[at];
    SameListing(host, x, y, at);
    ListedTreeIsValid(host, x, at);
    ListedTreeIsValid(host, y, at);
    SameItemsSameBytes(host.sha, ItemsOf(host.listing(x, at)), ItemsOf(host.listing(y, at)));
  }

  /** Judgement and digest of a target depend on nothing else. */
  lemma LeadIsLocal(host: Host, x: Files, y: Files, at: Location, public: bool)
    requires Lawful(host) && WellFormed(x) && WellFormed(y) && AgreeFrom(x, y, at)
    ensures LeadTo(host, x, At(at), public) == LeadTo(host, y, At(at), public)
  {
    ErrorIsLocal(host, x, y, at, public);
    AcceptedExactly(host, x, at, public);
    if TargetError(host, x, at, public).None? {
      DigestIsLocal(host, x, y, at);
    }
  }

  /** Growth adds nothing at or below what it neither creates nor encloses. */
  lemma GrowthAgrees(before: Files, after: Files, g: Growth, at: Location)
    requires Grown(before, after, g) && !(at <= g.root + [VERSIONS]) && (at in before || !Created(g, at))
    ensures AgreeFrom(before, after, at)
  {
    forall l | Below(at, l) ensures l in after ==> l in before {
      if l in after {
        if at in before {
          NothingNewBelow(before, after, g, at, l);
        } else {
          NothingBelowMissing(after, at, l);
        }
      }
    }
  }

  // ---- The entries ------------------------------------------------------------------------------

  /** An entry's link passes or ends at a name that growth adds, or ends above the registry's versions. */
  predicate Touches(files: Files, g: Growth, dir: Location, name: string) {
    var at := Resolve(files, dir, [name], {});
    && IsSymlink(files, dir + [name])
    && ((exists l :: l in Missed(files, dir, [name], {}) && Created(g, l))
        || (at.At? && (at.location <= g.root + [VERSIONS] || (at.location !in files && Created(g, at.location)))))
  }

  /** Any other entry leads where it led, to the same verdict and digest. */
  lemma LeadUnchanged(host: Host, before: Files, after: Files, g: Growth, dir: Location, name: string)
    requires Lawful(host) && Grown(before, after, g) && dir + [name] in before && !Touches(before, g, dir, name)
    ensures LeadOf(host, after, dir, name) == LeadOf(host, before, dir, name)
  {
    if IsSymlink(before, dir + [name]) {
      forall l | l in Missed(before, dir, [name], {}) ensures l !in after {
        MissedAreMissing(before, dir, [name], {}, l);
      }
      ResolutionSurvives(before, after, dir, [name], {});
      var at := Resolve(before, dir, [name], {});
      if at.At? {
        GrowthAgrees(before, after, g, at.location);
        LeadIsLocal(host, before, after, at.location, AllowsPublic(name));
      }
    }
  }

  type Verdict = Option<RegistryError>

  function FirstError(verdicts: seq<Verdict>): Verdict {
    if verdicts == [] then None else if verdicts[0].Some? then verdicts[0] else FirstError(verdicts[1..])
  }

  predicate Passes(verdicts: seq<Verdict>, n: nat) {
    n <= |verdicts| && forall i :: 0 <= i < n ==> verdicts[i].None?
  }

  lemma {:induction false} PassedOver(verdicts: seq<Verdict>, n: nat)
    requires Passes(verdicts, n)
    ensures FirstError(verdicts) == FirstError(verdicts[n..])
    decreases n
  {
    if n > 0 {
      PassedOver(verdicts[1..], n - 1);
      assert verdicts[1..][n - 1..] == verdicts[n..];
    }
  }

  /**
    The entries before this one pass in both, this one is judged differently, and where one of the two
    passes it, no later entry fails just as the other does here.
  */
  predicate Differs(x: seq<Verdict>, y: seq<Verdict>, i: nat) {
    && i < |x| == |y| && Passes(x, i) && Passes(y, i) && x[i] != y[i]
    && (x[i].None? ==> FirstError(x[i + 1..]) != y[i]) && (y[i].None? ==> FirstError(y[i + 1..]) != x[i])
  }

  lemma DifferenceShows(x: seq<Verdict>, y: seq<Verdict>, i: nat)
    requires Differs(x, y, i)
    ensures FirstError(x) != FirstError(y)
  {
    PassedOver(x, i);
    PassedOver(y, i);
    assert x[i..][1..] == x[i + 1..] && y[i..][1..] == y[i + 1..];
  }

  /** Two first errors are different only if some entry shows it. */
  lemma {:induction false} FindDifference(x: seq<Verdict>, y: seq<Verdict>, i: nat) returns (j: nat)
    requires i <= |x| == |y| && Passes(x, i) && Passes(y, i) && FirstError(x) != FirstError(y)
    ensures Differs(x, y, j)
    decreases |x| - i
  {
    PassedOver(x, i);
    PassedOver(y, i);
    j := i;
    assert x[i..][1..] == x[i + 1..] && y[i..][1..] == y[i + 1..];
    if x[i].None? && y[i].None? {
      j := FindDifference(x, y, i + 1);
    }
  }

  /** The verdicts on grown files, made of those on the base and of what the touched links now lead to. */
  ghost function Foretold(host: Host, base: Files, files: Files, g: Growth, dir: Location, parsed: map<string, string>, names: seq<string>): (verdicts: seq<Verdict>)
    requires Lawful(host) && WellFormed(base) && WellFormed(files) && forall i :: 0 <= i < |names| ==> names[i] in parsed
    ensures |verdicts| == |names|
  {
    if names == [] then []
    else
      var lead := if Touches(base, g, dir, names[0]) then LeadOf(host, files, dir, names[0]) else LeadOf(host, base, dir, names[0]);
      [Judge(lead, parsed[names[0]])] + Foretold(host, base, files, g, dir, parsed, names[1..])
  }

  lemma {:induction false} ForetoldTruly(host: Host, base: Files, files: Files, g: Growth, dir: Location, parsed: map<string, string>, names: seq<string>)
    requires Lawful(host) && Grown(base, files, g)
    requires forall i :: 0 <= i < |names| ==> names[i] in parsed && dir + [names[i]] in base
    ensures CheckEntries(host, files, dir, parsed, names) == FirstError(Foretold(host, base, files, g, dir, parsed, names))
    decreases |names|
  {
    if names != [] {
      ForetoldTruly(host, base, files, g, dir, parsed, names[1..]);
      if !Touches(base, g, dir, names[0]) {
        LeadUnchanged(host, base, files, g, dir, names[0]);
      }
      var rest := Foretold(host, base, files, g, dir, parsed, names[1..]);
      assert ([CheckEntry(host, files, dir, parsed, names[0])] + rest)[1..] == rest;
    }
  }

  lemma {:induction false} OnlyTouchedDiffer(host: Host, base: Files, x: Files, y: Files, g: Growth, dir: Location, parsed: map<string, string>, names: seq<string>, i: nat)
    requires Lawful(host) && WellFormed(base) && WellFormed(x) && WellFormed(y) && forall i :: 0 <= i < |names| ==> names[i] in parsed
    requires i < |names| && Foretold(host, base, x, g, dir, parsed, names)[i] != Foretold(host, base, y, g, dir, parsed, names)[i]
    ensures Touches(base, g, dir, names[i])
    decreases i
  {
    if i > 0 {
      OnlyTouchedDiffer(host, base, x, y, g, dir, parsed, names[1..], i - 1);
    }
  }

  /** A touched entry shows which of the two was verified. */
  ghost predicate EntryShows(host: Host, base: Files, x: Files, y: Files, g: Growth, dir: Location, parsed: map<string, string>, names: seq<string>, i: nat)
    requires Lawful(host) && WellFormed(base) && WellFormed(x) && WellFormed(y) && forall i :: 0 <= i < |names| ==> names[i] in parsed
  {
    && i < |names| && Touches(base, g, dir, names[i])
    && Differs(Foretold(host, base, x, g, dir, parsed, names), Foretold(host, base, y, g, dir, parsed, names), i)
  }

  lemma EntriesDifferExactly(host: Host, base: Files, x: Files, y: Files, g: Growth, dir: Location, parsed: map<string, string>, names: seq<string>)
    requires Lawful(host) && Grown(base, x, g) && Grown(base, y, g)
    requires forall i :: 0 <= i < |names| ==> names[i] in parsed && dir + [names[i]] in base
    ensures CheckEntries(host, x, dir, parsed, names) == CheckEntries(host, y, dir, parsed, names) <==>
            !exists i: nat :: EntryShows(host, base, x, y, g, dir, parsed, names, i)
  {
    var v, w := Foretold(host, base, x, g, dir, parsed, names), Foretold(host, base, y, g, dir, parsed, names);
    ForetoldTruly(host, base, x, g, dir, parsed, names);
    ForetoldTruly(host, base, y, g, dir, parsed, names);
    if i: nat :| EntryShows(host, base, x, y, g, dir, parsed, names, i) {
      DifferenceShows(v, w, i);
    } else if FirstError(v) != FirstError(w) {
      var i := FindDifference(v, w, 0);
      OnlyTouchedDiffer(host, base, x, y, g, dir, parsed, names, i);
      assert EntryShows(host, base, x, y, g, dir, parsed, names, i);
    }
  }

  // ---- Before the entries -----------------------------------------------------------------------

  lemma PresentSurvives(before: Files, after: Files, root: Location)
    requires Extends(before, after) && Present(before, root)
    ensures Present(after, root)
    ensures CurrentAt(after, root) == CurrentAt(before, root) && ManifestAt(after, root) == ManifestAt(before, root)
  {
    WalkSurvives(before, after, root, [CURRENT], FOLLOWS);
    WalkSurvives(before, after, root, [MANIFEST], FOLLOWS);
  }

  lemma VersionsStay(files: Files, root: Location)
    requires !IsSymlink(files, root + [VERSIONS])
    ensures VersionsAt(files, root) == At(root + [VERSIONS])
  {
    NamesAreNames();
    assert [VERSIONS] == [VERSIONS] + [];
    ResolvePastName(files, root, VERSIONS, [], {});
  }

  lemma RootHolds(files: Files, root: Location, name: string)
    requires WellFormed(files) && root + [name] in files
    ensures IsDirectory(files, root)
  {
    assert Parent(root + [name]) == root;
  }

  lemma ChildrenUnchanged(before: Files, after: Files, g: Growth, dir: Location)
    requires Grown(before, after, g) && dir in before && !(dir <= g.root + [VERSIONS])
    ensures ChildNames(after, dir) == ChildNames(before, dir)
  {
    forall name ensures name in ChildNames(after, dir) <==> name in ChildNames(before, dir) {
      if name in ChildNames(after, dir) {
        ChildExists(after, dir, name);
        NothingNewBelow(before, after, g, dir, dir + [name]);
      }
      if name in ChildNames(before, dir) {
        ChildExists(before, dir, name);
      }
    }
  }

  /** While there is a current version, nothing before the entries can change. */
  lemma DirectoryUnchanged(before: Files, after: Files, g: Growth, expected: Option<string>)
    requires Grown(before, after, g) && Present(before, g.root)
    ensures CheckDirectory(after, g.root, expected) == CheckDirectory(before, g.root, expected)
  {
    PresentSurvives(before, after, g.root);
    VersionsStay(before, g.root);
    VersionsStay(after, g.root);
    RootHolds(before, g.root, CURRENT);
    var dir := CurrentAt(before, g.root).value;
    if |dir| >= 2 && dir[..|dir| - 2] == g.root + [VERSIONS] {
      ChildrenUnchanged(before, after, g, dir);
    }
  }

  // ---- The exact condition ----------------------------------------------------------------------

  /** In the link directory that `current` leads to, a touched entry shows. */
  ghost predicate ContentsShow(host: Host, base: Files, x: Files, y: Files, g: Growth, dir: Location, text: string)
    requires Lawful(host) && WellFormed(base) && WellFormed(x) && WellFormed(y)
  {
    var parsed := Parse(text);
    parsed.Some? && exists i: nat :: EntryShows(host, base, x, y, g, dir, parsed.value, NAMES, i)
  }

  /**
    Two growths of one file system can be told apart: without a current version in it, in one of them
    only `current` leads to a directory and the manifest to a file; with one, a touched entry leads to
    things that are judged differently.
  */
  ghost predicate Shows(host: Host, base: Files, x: Files, y: Files, g: Growth)
    requires Lawful(host) && WellFormed(base) && WellFormed(x) && WellFormed(y)
  {
    if !Present(base, g.root) then Present(x, g.root) != Present(y, g.root)
    else
      && CheckDirectory(base, g.root, None).None?
      && ContentsShow(host, base, x, y, g, CurrentAt(base, g.root).value, ManifestText(base, g.root))
  }

  lemma ContentsDifferExactly(host: Host, base: Files, x: Files, y: Files, g: Growth, dir: Location, text: string)
    requires Lawful(host) && Grown(base, x, g) && Grown(base, y, g) && ChildNames(base, dir) == ALL_NAMES && |dir| >= 2
    ensures CheckContents(host, x, dir, text) == CheckContents(host, y, dir, text) <==> !ContentsShow(host, base, x, y, g, dir, text)
  {
    var parsed := Parse(text);
    if parsed.Some? {
      forall i | 0 <= i < |NAMES| ensures dir + [NAMES[i]] in base {
        ChildExists(base, dir, NAMES[i]);
      }
      EntriesDifferExactly(host, base, x, y, g, dir, parsed.value, NAMES);
    }
  }

  /** While there is a current version, one expectation at a time. */
  lemma AnswerDiffersExactly(host: Host, base: Files, x: Files, y: Files, g: Growth, expected: Option<string>)
    requires Lawful(host) && Grown(base, x, g) && Grown(base, y, g) && Present(base, g.root)
    ensures Verify(host, x, g.root, expected) == Verify(host, y, g.root, expected) <==>
            !(CheckDirectory(base, g.root, expected).None? && Shows(host, base, x, y, g))
  {
    PresentSurvives(base, x, g.root);
    PresentSurvives(base, y, g.root);
    DirectoryUnchanged(base, x, g, expected);
    DirectoryUnchanged(base, y, g, expected);
    if CheckDirectory(base, g.root, expected).None? {
      assert CheckDirectory(base, g.root, None).None?;
      ContentsDifferExactly(host, base, x, y, g, CurrentAt(base, g.root).value, ManifestText(base, g.root));
    }
  }

  lemma MissingAnswers(host: Host, files: Files, root: Location, expected: Option<string>)
    requires Lawful(host) && WellFormed(files)
    ensures Verify(host, files, root, expected) == Err(CurrentMissing) <==> !Present(files, root)
  {
    if Present(files, root) && CheckDirectory(files, root, expected).None? && Parse(ManifestText(files, root)).Some? {
      EntryErrors(host, files, CurrentAt(files, root).value, Parse(ManifestText(files, root)).value, NAMES);
    }
  }

  lemma {:induction false} OffenceIsOfTarget(host: Host, nodes: seq<Filed<Node>>, public: bool)
    ensures FirstOffence(host, nodes, public) != Some(CurrentMissing)
    decreases |nodes|
  {
    if nodes != [] {
      OffenceIsOfTarget(host, nodes[1..], public);
    }
  }

  lemma {:induction false} EntryErrors(host: Host, files: Files, dir: Location, parsed: map<string, string>, names: seq<string>)
    requires Lawful(host) && WellFormed(files) && forall n :: 0 <= n < |names| ==> names[n] in parsed
    ensures CheckEntries(host, files, dir, parsed, names) != Some(CurrentMissing)
    decreases |names|
  {
    if names != [] {
      EntryErrors(host, files, dir, parsed, names[1..]);
      var at := Resolve(files, dir, [names[0]], {});
      if at.At? {
        OffenceIsOfTarget(host, Sort(host.listing(files, at.location)), AllowsPublic(names[0]));
      }
    }
  }

  /** A walk that arrives in both of two growths with nothing new in common arrived before. */
  lemma WalkOfBoth(base: Files, x: Files, y: Files, g: Growth, name: string)
    requires Grown(base, x, g) && Grown(base, y, g) && (forall l :: l in x && l in y ==> l in base) && IsDirectory(base, g.root)
    requires Walk(x, g.root, [name], FOLLOWS).Some? && Walk(y, g.root, [name], FOLLOWS).Some?
    ensures Walk(base, g.root, [name], FOLLOWS) == Walk(x, g.root, [name], FOLLOWS)
    ensures var at := Walk(base, g.root, [name], FOLLOWS).value; at in base && base[at] == x[at]
  {
    if Walk(base, g.root, [name], FOLLOWS).None? {
      RevivedWalkStoppedAtNewName(base, x, g.root, [name], FOLLOWS);
      RevivedWalkStoppedAtNewName(base, y, g.root, [name], FOLLOWS);
    } else {
      WalkSurvives(base, x, g.root, [name], FOLLOWS);
      WalkArrivesSomewhere(base, g.root, [name], FOLLOWS);
    }
  }

  lemma PresentInBoth(base: Files, x: Files, y: Files, g: Growth)
    requires Grown(base, x, g) && Grown(base, y, g) && (forall l :: l in x && l in y ==> l in base)
    requires Present(x, g.root) && Present(y, g.root)
    ensures Present(base, g.root)
  {
    RootHolds(base, g.root, CURRENT);
    WalkOfBoth(base, x, y, g, CURRENT);
    WalkOfBoth(base, x, y, g, MANIFEST);
  }

  /** Two growths with nothing new in common answer alike exactly when they cannot be told apart. */
  lemma GrowthsShowExactly(host: Host, base: Files, x: Files, y: Files, g: Growth)
    requires Lawful(host) && Grown(base, x, g) && Grown(base, y, g) && forall l :: l in x && l in y ==> l in base
    ensures (forall expected :: Verify(host, x, g.root, expected) == Verify(host, y, g.root, expected)) <==> !Shows(host, base, x, y, g)
  {
    if Present(base, g.root) {
      forall expected ensures Verify(host, x, g.root, expected) == Verify(host, y, g.root, expected) <==>
                              !(CheckDirectory(base, g.root, expected).None? && Shows(host, base, x, y, g))
      {
        AnswerDiffersExactly(host, base, x, y, g, expected);
      }
    } else {
      forall expected ensures Verify(host, x, g.root, expected) == Err(CurrentMissing) <==> !Present(x, g.root) {
        MissingAnswers(host, x, g.root, expected);
      }
      forall expected ensures Verify(host, y, g.root, expected) == Err(CurrentMissing) <==> !Present(y, g.root) {
        MissingAnswers(host, y, g.root, expected);
      }
      if Present(x, g.root) && Present(y, g.root) {
        PresentInBoth(base, x, y, g);
      } else if Present(x, g.root) != Present(y, g.root) {
        assert Verify(host, x, g.root, None) != Verify(host, y, g.root, None);
      }
    }
  }

  /** In particular, growth changes some answer exactly when it shows. */
  lemma GrowthShowsExactly(host: Host, before: Files, after: Files, g: Growth)
    requires Lawful(host) && Grown(before, after, g)
    ensures (forall expected :: Verify(host, before, g.root, expected) == Verify(host, after, g.root, expected)) <==>
            !Shows(host, before, before, after, g)
  {
    GrowthsShowExactly(host, before, before, after, g);
  }

  // ---- Links that growth cannot touch -----------------------------------------------------------

  /** `current` or the manifest stops at a name that growth adds. */
  predicate StopsAtCreated(files: Files, g: Growth, name: string) {
    var stop := StopsAt(files, g.root, [name], FOLLOWS);
    stop.Some? && Created(g, stop.value)
  }

  /** Neither does, and no entry of the current version is touched: all of it can be seen before the growth. */
  predicate Untouched(files: Files, g: Growth) {
    && !StopsAtCreated(files, g, CURRENT) && !StopsAtCreated(files, g, MANIFEST)
    && (Present(files, g.root) ==> forall n :: n in ALL_NAMES ==> !Touches(files, g, CurrentAt(files, g.root).value, n))
  }

  /** A revived `current` or manifest was stopped by a name that growth adds. */
  lemma RevivedLinkStoppedAtCreatedName(before: Files, after: Files, g: Growth, name: string)
    requires Grown(before, after, g) && g.root in before
    requires Walk(before, g.root, [name], FOLLOWS).None? && Walk(after, g.root, [name], FOLLOWS).Some?
    ensures StopsAtCreated(before, g, name)
  {
    RevivedWalkStoppedAtNewName(before, after, g.root, [name], FOLLOWS);
  }

  lemma SameWalk(before: Files, after: Files, g: Growth, name: string)
    requires Grown(before, after, g) && g.root in before && !before[g.root].Symlink? && !StopsAtCreated(before, g, name)
    ensures Walk(after, g.root, [name], FOLLOWS) == Walk(before, g.root, [name], FOLLOWS)
    ensures var at := Walk(before, g.root, [name], FOLLOWS); at.Some? ==> at.value in before && after[at.value] == before[at.value]
  {
    if Walk(before, g.root, [name], FOLLOWS).Some? {
      WalkSurvives(before, after, g.root, [name], FOLLOWS);
      WalkArrivesSomewhere(before, g.root, [name], FOLLOWS);
    } else if Walk(after, g.root, [name], FOLLOWS).Some? {
      RevivedLinkStoppedAtCreatedName(before, after, g, name);
    }
  }

  lemma StaysMissing(before: Files, after: Files, g: Growth)
    requires Grown(before, after, g) && CURRENT !in g.staged && Untouched(before, g) && !Present(before, g.root)
    ensures !Present(after, g.root)
  {
    var link := g.root + [CURRENT];
    if link in after && link !in before {
      NotVersions(g.root, CURRENT);
    } else if link in after {
      RootHolds(before, g.root, CURRENT);
      SameWalk(before, after, g, CURRENT);
      SameWalk(before, after, g, MANIFEST);
    }
  }

  /** Growth that can touch no link changes no answer. */
  lemma UntouchedAnswersAsBefore(host: Host, before: Files, after: Files, g: Growth, expected: Option<string>)
    requires Lawful(host) && Grown(before, after, g) && CURRENT !in g.staged && Untouched(before, g)
    ensures Verify(host, before, g.root, expected) == Verify(host, after, g.root, expected)
  {
    if !Present(before, g.root) {
      StaysMissing(before, after, g);
    }
    GrowthShowsExactly(host, before, after, g);
  }

  // ---- Crash points of an adoption --------------------------------------------------------------

  /** Not one of the names the registry root itself uses. */
  predicate OtherName(name: string) {
    name != CURRENT && name != MANIFEST && name != VERSIONS
  }

  /** What adoption takes for granted: the root is reached by no link, and two unused names are drawn to stage under. */
  ghost predicate Startable(files: Files, root: Location, a: Adoption) {
    && WellFormed(files) && AreNames(root)
    && (forall i :: 0 <= i < |root| ==> !IsSymlink(files, root[..i])) && !IsSymlink(files, root + [VERSIONS])
    && IsName(a.stagedLink) && IsName(a.stagedManifest) && a.stagedLink != a.stagedManifest
    && root + [a.stagedLink] !in files && root + [a.stagedManifest] !in files
    && OtherName(a.stagedLink) && OtherName(a.stagedManifest)
  }

  /** An adoption that gets as far as writing. */
  ghost predicate Adoptable(files: Files, root: Location, a: Adoption) {
    && Startable(files, root, a) && IsName(a.run) && a.chosen.Keys == ALL_NAMES
    && Prepare(files, root).1.None? && VersionDirectory(root, a.run) !in files
  }

  lemma {:induction false} DirectoriesMade(files: Files, at: Location, mode: nat)
    requires WellFormed(files) && AreNames(at) && mode < 0x1000
    requires forall i :: 0 <= i <= |at| ==> at[..i] in files ==> IsDirectory(files, at[..i])
    ensures var made := MakeDirectories(files, at, mode);
            && WellFormed(made) && Extends(files, made) && IsDirectory(made, at)
            && forall l :: l in made && l !in files ==> l <= at && made[l].Directory?
    decreases |at|
  {
    assert at[..|at|] == at;
    if at !in files {
      assert forall i :: 0 <= i < |at| ==> Parent(at)[..i] == at[..i];
      assert at[..|at| - 1] == Parent(at);
      DirectoriesMade(files, Parent(at), 0x1ED);
      assert at !in MakeDirectories(files, Parent(at), 0x1ED);
      AddKeepsWellFormed(MakeDirectories(files, Parent(at), 0x1ED), at, Directory(true, mode));
    }
  }

  lemma Prepared(files: Files, root: Location, a: Adoption)
    requires Startable(files, root, a) && Prepare(files, root).1.None?
    ensures var ready := Prepare(files, root).0;
            && WellFormed(ready) && Extends(files, ready) && IsDirectory(ready, root) && IsDirectory(ready, root + [VERSIONS])
            && forall l :: l in ready && l !in files ==> l <= root + [VERSIONS]
  {
    assert root[..|root|] == root;
    DirectoriesMade(files, root, PRIVATE_DIRECTORY);
    VersionsMade(files, MakeDirectories(files, root, PRIVATE_DIRECTORY), root);
  }

  lemma VersionsMade(files: Files, made: Files, root: Location)
    requires WellFormed(made) && Extends(files, made) && IsDirectory(made, root)
    requires forall l :: l in made && l !in files ==> l <= root
    ensures var versions := root + [VERSIONS];
            var ready := made[versions := Directory(true, PRIVATE_DIRECTORY)];
            versions !in made ==>
              && WellFormed(ready) && Extends(files, ready) && IsDirectory(ready, root)
              && forall l :: l in ready && l !in files ==> l <= versions
  {
    var versions := root + [VERSIONS];
    assert Parent(versions) == root;
    if versions !in made {
      AddKeepsWellFormed(made, versions, Directory(true, PRIVATE_DIRECTORY));
    }
  }

  lemma NamesAreNames()
    ensures IsName(CURRENT) && IsName(MANIFEST) && IsName(VERSIONS) && forall i :: 0 <= i < |NAMES| ==> IsName(NAMES[i])
  {
    forall i | 0 <= i < |NAMES| ensures IsName(NAMES[i]) {
    }
  }

  /** The directory that an early step writes into. */
  function Holder(root: Location, a: Adoption, i: nat): Location {
    if i == 0 then root + [VERSIONS]
    else if i == 1 then VersionDirectory(root, a.run)
    else if i < 7 then LinkDirectory(root, a.run)
    else root
  }

  lemma EarlyStep(root: Location, a: Adoption, text: string, i: nat)
    requires a.chosen.Keys == ALL_NAMES && i < 8 && IsName(a.run) && IsName(a.stagedLink)
    ensures var change := Step(root, a, text, i);
            && change.Add? && change.at != [] && Parent(change.at) == Holder(root, a, i) && IsName(change.at[|change.at| - 1])
            && (if i == 0 then change.at == VersionDirectory(root, a.run)
                else if i == 7 then change.at == root + [a.stagedLink]
                else Below(VersionDirectory(root, a.run), change.at))
            && (i == 1 ==> change.at == LinkDirectory(root, a.run)) && (2 <= i < 7 ==> |change.at| == |LinkDirectory(root, a.run)| + 1)
            && if i < 2 then change.node == Directory(true, PRIVATE_DIRECTORY) else change.node.Symlink?
  {
    NamesAreNames();
    var change := Step(root, a, text, i);
    if 2 <= i < 7 {
      assert change.at == LinkDirectory(root, a.run) + [NAMES[i - 2]];
    }
  }

  /** After k early steps: only links and the two directories were added, none of them over anything. */
  ghost predicate Growing(ready: Files, files: Files, version: Location, links: Location, staged: Location, k: nat) {
    && Extends(ready, files)
    && (forall l :: l in files && l !in ready ==> l == staged || l == version || Below(version, l))
    && (forall l :: l in files && l !in ready && files[l].Directory? ==> l == version || l == links)
    && (if k < 1 then version !in files else version in files && files[version] == Directory(true, PRIVATE_DIRECTORY))
    && (if k < 2 then links !in files else links in files && files[links] == Directory(true, PRIVATE_DIRECTORY))
  }

  /** What an adoption starts from once the root is prepared. */
  ghost predicate Ready(ready: Files, root: Location, a: Adoption) {
    && WellFormed(ready) && IsDirectory(ready, root) && IsDirectory(ready, root + [VERSIONS])
    && VersionDirectory(root, a.run) !in ready && root + [a.stagedLink] !in ready
    && a.chosen.Keys == ALL_NAMES && IsName(a.run) && IsName(a.stagedLink)
  }

  lemma EarlyStepGrows(ready: Files, files: Files, root: Location, a: Adoption, text: string, i: nat)
    requires Ready(ready, root, a) && i < 8 && WellFormed(files)
    requires Growing(ready, files, VersionDirectory(root, a.run), LinkDirectory(root, a.run), root + [a.stagedLink], i)
    ensures var after := Perform(files, Step(root, a, text, i));
            && WellFormed(after)
            && Growing(ready, after, VersionDirectory(root, a.run), LinkDirectory(root, a.run), root + [a.stagedLink], i + 1)
  {
    var version, change := VersionDirectory(root, a.run), Step(root, a, text, i);
    EarlyStep(root, a, text, i);
    if Below(version, change.at) {
      NothingBelowMissing(ready, version, change.at);
    }
    assert IsDirectory(files, Holder(root, a, i));
    AddKeepsWellFormed(files, change.at, change.node);
  }

  lemma {:induction false} EarlyStepsGrow(ready: Files, root: Location, a: Adoption, text: string, k: nat)
    requires Ready(ready, root, a) && k <= 8
    ensures WellFormed(CrashPoint(ready, root, a, text, k))
    ensures Growing(ready, CrashPoint(ready, root, a, text, k), VersionDirectory(root, a.run), LinkDirectory(root, a.run), root + [a.stagedLink], k)
  {
    if k == 0 {
      NothingBelowMissing(ready, VersionDirectory(root, a.run), LinkDirectory(root, a.run));
    } else {
      EarlyStepsGrow(ready, root, a, text, k - 1);
      EarlyStepGrows(ready, CrashPoint(ready, root, a, text, k - 1), root, a, text, k - 1);
    }
  }

  lemma AdoptableIsReady(files: Files, root: Location, a: Adoption)
    requires Adoptable(files, root, a)
    ensures Ready(Prepare(files, root).0, root, a)
  {
    Prepared(files, root, a);
    NotVersions(root, a.stagedLink);
  }

  lemma NotVersions(root: Location, name: string)
    requires name != VERSIONS
    ensures !(root + [name] <= root + [VERSIONS])
  {
    assert (root + [name])[|root|] != (root + [VERSIONS])[|root|];
  }

  /** What an adoption adds before it replaces `current`. */
  function GrowthOf(root: Location, a: Adoption): Growth {
    Growth(root, a.run, {a.stagedLink})
  }

  lemma EarlyCrashPointIsGrown(files: Files, root: Location, a: Adoption, text: string, k: nat)
    requires Adoptable(files, root, a) && k < REPLACE_CURRENT
    ensures Grown(files, CrashPoint(Prepare(files, root).0, root, a, text, k), GrowthOf(root, a))
  {
    var ready := Prepare(files, root).0;
    Prepared(files, root, a);
    AdoptableIsReady(files, root, a);
    EarlyStepsGrow(ready, root, a, text, k);
  }

  /**
    Verification answers as before at every crash point until `current` is replaced, if and only if
    none of them shows.
  */
  lemma UnchangedBeforeReplacement(host: Host, files: Files, root: Location, a: Adoption, text: string)
    requires Lawful(host) && Adoptable(files, root, a)
    ensures forall k: nat :: k < REPLACE_CURRENT ==> WellFormed(CrashPoint(Prepare(files, root).0, root, a, text, k))
    ensures (forall k: nat, expected :: k < REPLACE_CURRENT ==>
               Verify(host, files, root, expected) == Verify(host, CrashPoint(Prepare(files, root).0, root, a, text, k), root, expected))
            <==> !exists k: nat :: k < REPLACE_CURRENT && Shows(host, files, files, CrashPoint(Prepare(files, root).0, root, a, text, k), GrowthOf(root, a))
  {
    forall k: nat | k < REPLACE_CURRENT
      ensures var after := CrashPoint(Prepare(files, root).0, root, a, text, k);
              && WellFormed(after)
              && ((forall expected :: Verify(host, files, root, expected) == Verify(host, after, root, expected)) <==>
                  !Shows(host, files, files, after, GrowthOf(root, a)))
    {
      EarlyCrashPointIsGrown(files, root, a, text, k);
      GrowthShowsExactly(host, files, CrashPoint(Prepare(files, root).0, root, a, text, k), GrowthOf(root, a));
    }
  }

  /**
    So it does whenever no link is touched by the names the adoption adds, which can be seen before
    the adoption.
  */
  lemma UntouchedLinksAnswerAsBefore(host: Host, files: Files, root: Location, a: Adoption, text: string, k: nat, expected: Option<string>)
    requires Lawful(host) && Adoptable(files, root, a) && k < REPLACE_CURRENT && Untouched(files, GrowthOf(root, a))
    ensures var after := CrashPoint(Prepare(files, root).0, root, a, text, k);
            WellFormed(after) && Verify(host, files, root, expected) == Verify(host, after, root, expected)
  {
    EarlyCrashPointIsGrown(files, root, a, text, k);
    UntouchedAnswersAsBefore(host, files, CrashPoint(Prepare(files, root).0, root, a, text, k), GrowthOf(root, a), expected);
  }

  // ---- A revived link ---------------------------------------------------------------------------

  /** `current` names the version that is about to be made. */
  lemma WalkToNewVersion(files: Files, root: Location, run: string)
    requires WellFormed(files) && IsName(run) && IsDirectory(files, root + [VERSIONS]) && IsDirectory(files, root)
    requires root + [CURRENT] in files && files[root + [CURRENT]] == Symlink(false, [VERSIONS, run])
    requires !IsSymlink(files, VersionDirectory(root, run))
    ensures CurrentAt(files, root) == if VersionDirectory(root, run) in files then Some(VersionDirectory(root, run)) else None
  {
    NamesAreNames();
    VersionPath(root, run);
    WalkThroughLink(files, root, CURRENT, FOLLOWS);
    WalkPastName(files, root, VERSIONS, [run], FOLLOWS - 1);
    WalkPastName(files, root + [VERSIONS], run, [], FOLLOWS - 1);
  }

  lemma VersionPath(root: Location, run: string)
    ensures [VERSIONS, run] == [VERSIONS] + [run] && [run] == [run] + [] && root + [VERSIONS] + [run] == VersionDirectory(root, run)
  {
  }

  /** A link to a version directory, not to the link directory in it, is invalid once it leads there. */
  lemma VersionLinkIsInvalid(host: Host, files: Files, root: Location, run: string)
    requires Lawful(host) && WellFormed(files) && IsName(run) && IsDirectory(files, root + [VERSIONS])
    requires root + [CURRENT] in files && files[root + [CURRENT]] == Symlink(false, [VERSIONS, run])
    requires Private(files, root, PRIVATE_DIRECTORY)
    requires IsFile(files, root + [MANIFEST]) && Private(files, root + [MANIFEST], PRIVATE_FILE)
    requires VersionDirectory(root, run) in files ==> IsDirectory(files, VersionDirectory(root, run))
    ensures Verify(host, files, root, None) == Err(if VersionDirectory(root, run) in files then CurrentInvalid else CurrentMissing)
  {
    RootHolds(files, root, CURRENT);
    WalkToNewVersion(files, root, run);
    WalkDown(files, root, [MANIFEST], FOLLOWS);
    VersionsStay(files, root);
    var version := VersionDirectory(root, run);
    assert |version[..|version| - 2]| != |root + [VERSIONS]|;
  }

  lemma VersionLinkComesAlive(host: Host, files: Files, root: Location, a: Adoption, text: string)
    requires Lawful(host) && Adoptable(files, root, a)
    requires root + [CURRENT] in files && files[root + [CURRENT]] == Symlink(false, [VERSIONS, a.run])
    requires Private(files, root, PRIVATE_DIRECTORY) && IsDirectory(files, root + [VERSIONS])
    requires IsFile(files, root + [MANIFEST]) && Private(files, root + [MANIFEST], PRIVATE_FILE)
    ensures var after := CrashPoint(Prepare(files, root).0, root, a, text, 1);
            && Verify(host, files, root, None) == Err(CurrentMissing)
            && WellFormed(after) && Verify(host, after, root, None) == Err(CurrentInvalid)
  {
    var ready := Prepare(files, root).0;
    EarlyCrashPointIsGrown(files, root, a, text, 1);
    AdoptableIsReady(files, root, a);
    EarlyStepsGrow(ready, root, a, text, 1);
    VersionLinkIsInvalid(host, files, root, a.run);
    VersionLinkIsInvalid(host, CrashPoint(ready, root, a, text, 1), root, a.run);
  }

  /** An absolute link to the version that is about to be made. */
  lemma ResolveToNewVersion(files: Files, root: Location, run: string, active: set<Location>)
    requires WellFormed(files) && IsName(run) && IsDirectory(files, root + [VERSIONS]) && !IsSymlink(files, VersionDirectory(root, run))
    ensures Resolve(files, [], VersionDirectory(root, run), active) == At(VersionDirectory(root, run))
  {
    var path, versions := VersionDirectory(root, run), root + [VERSIONS];
    VersionPath(root, run);
    assert path[..|versions|] == versions && path[|versions|..] == [run] && [] + versions == versions;
    ResolveDownThen(files, [], path, |versions|, active);
    ResolvePastName(files, versions, run, [], active);
  }

  lemma EntryLeadsToVersion(host: Host, files: Files, root: Location, run: string, dir: Location, n: string)
    requires Lawful(host) && WellFormed(files) && IsName(run) && IsName(n)
    requires IsDirectory(files, root + [VERSIONS]) && !IsSymlink(files, VersionDirectory(root, run))
    requires dir + [n] in files && files[dir + [n]] == Symlink(true, VersionDirectory(root, run))
    ensures LeadOf(host, files, dir, n) == LeadTo(host, files, At(VersionDirectory(root, run)), AllowsPublic(n))
  {
    ResolveThroughLink(files, dir, n, {});
    ResolveToNewVersion(files, root, run, {} + {dir + [n]});
  }

  lemma EmptyTreeIsAccepted(host: Host, files: Files, at: Location, public: bool)
    requires Lawful(host) && WellFormed(files) && PRIVATE in at && Private(files, at, PRIVATE_DIRECTORY)
    requires forall l :: Below(at, l) ==> l !in files
    ensures LeadTo(host, files, At(at), public).Accepted?
  {
    AcceptedExactly(host, files, at, public);
  }

  lemma PrivateVersion(root: Location, run: string)
    requires PRIVATE in root
    ensures PRIVATE in VersionDirectory(root, run)
  {
    var i :| 0 <= i < |root| && root[i] == PRIVATE;
    assert VersionDirectory(root, run)[i] == PRIVATE;
  }

  lemma FirstStep(ready: Files, root: Location, a: Adoption, text: string, k: nat)
    requires Ready(ready, root, a) && k == 1
    ensures var after, version := CrashPoint(ready, root, a, text, k), VersionDirectory(root, a.run);
            && WellFormed(after) && Extends(ready, after) && Private(after, version, PRIVATE_DIRECTORY) && IsDirectory(after, version)
            && forall l :: Below(version, l) ==> l !in after
  {
    var version := VersionDirectory(root, a.run);
    EarlyStepsGrow(ready, root, a, text, k);
    assert CrashPoint(ready, root, a, text, k) == ready[version := Directory(true, PRIVATE_DIRECTORY)];
    forall l | Below(version, l) ensures l !in ready {
      NothingBelowMissing(ready, version, l);
    }
  }

  /** An entry that names the version being made leads nowhere before, and to an acceptable empty tree after the first step. */
  lemma EntryComesAlive(host: Host, files: Files, root: Location, a: Adoption, text: string, dir: Location, n: string)
    requires Lawful(host) && Adoptable(files, root, a) && PRIVATE in root && IsDirectory(files, root + [VERSIONS])
    requires IsName(n) && dir + [n] in files && files[dir + [n]] == Symlink(true, VersionDirectory(root, a.run))
    ensures LeadOf(host, files, dir, n) == Rejected(TargetInvalid)
    ensures var after := CrashPoint(Prepare(files, root).0, root, a, text, 1);
            WellFormed(after) && LeadOf(host, after, dir, n).Accepted?
  {
    var ready, k: nat := Prepare(files, root).0, 1;
    Prepared(files, root, a);
    AdoptableIsReady(files, root, a);
    PrivateVersion(root, a.run);
    FirstStep(ready, root, a, text, k);
    EntryLeadsToVersion(host, files, root, a.run, dir, n);
    EntryLeadsToVersion(host, CrashPoint(ready, root, a, text, k), root, a.run, dir, n);
    EmptyTreeIsAccepted(host, CrashPoint(ready, root, a, text, k), VersionDirectory(root, a.run), AllowsPublic(n));
  }

  lemma PrepareIsIdle(files: Files, root: Location)
    requires WellFormed(files) && IsDirectory(files, root) && IsDirectory(files, root + [VERSIONS])
    requires Private(files, root, PRIVATE_DIRECTORY) && Private(files, root + [VERSIONS], PRIVATE_DIRECTORY)
    ensures Prepare(files, root) == (files, None)
    ensures forall i :: 0 <= i <= |root| ==> IsDirectory(files, root[..i])
  {
    forall i | 0 <= i <= |root| ensures IsDirectory(files, root[..i]) {
      if i < |root| {
        AncestorsAreDirectories(files, root, i);
      } else {
        assert root[..i] == root;
      }
    }
  }

  /** A registry whose `current` was left pointing at a version that does not exist. */
  function LeftOver(): Files {
    map[[] := Directory(false, 0x1ED)]
      [[PRIVATE] := Directory(true, PRIVATE_DIRECTORY)]
      [[PRIVATE, VERSIONS] := Directory(true, PRIVATE_DIRECTORY)]
      [[PRIVATE, CURRENT] := Symlink(false, [VERSIONS, "run-2"])]
      [[PRIVATE, MANIFEST] := File(true, PRIVATE_FILE, "")]
  }

  lemma LeftOverIsWellFormed()
    ensures WellFormed(LeftOver())
  {
    NamesAreNames();
    assert Parent([PRIVATE]) == [];
    assert Parent([PRIVATE, VERSIONS]) == Parent([PRIVATE, CURRENT]) == Parent([PRIVATE, MANIFEST]) == [PRIVATE];
    var top: Files := map[[] := Directory(false, 0x1ED)];
    AddKeepsWellFormed(top, [PRIVATE], Directory(true, PRIVATE_DIRECTORY));
    var root := top[[PRIVATE] := Directory(true, PRIVATE_DIRECTORY)];
    AddKeepsWellFormed(root, [PRIVATE, VERSIONS], Directory(true, PRIVATE_DIRECTORY));
    var versions := root[[PRIVATE, VERSIONS] := Directory(true, PRIVATE_DIRECTORY)];
    AddKeepsWellFormed(versions, [PRIVATE, CURRENT], Symlink(false, [VERSIONS, "run-2"]));
    var current := versions[[PRIVATE, CURRENT] := Symlink(false, [VERSIONS, "run-2"])];
    AddKeepsWellFormed(current, [PRIVATE, MANIFEST], File(true, PRIVATE_FILE, ""));
  }

  /** A file system that needs no preparation, with a new run and new staged names. */
  lemma AdoptableAsItIs(files: Files, root: Location, a: Adoption)
    requires WellFormed(files) && IsDirectory(files, root) && IsDirectory(files, root + [VERSIONS])
    requires Private(files, root, PRIVATE_DIRECTORY) && Private(files, root + [VERSIONS], PRIVATE_DIRECTORY)
    requires IsName(a.run) && a.chosen.Keys == ALL_NAMES && VersionDirectory(root, a.run) !in files
    requires IsName(a.stagedLink) && IsName(a.stagedManifest) && a.stagedLink != a.stagedManifest
    requires root + [a.stagedLink] !in files && root + [a.stagedManifest] !in files
    requires OtherName(a.stagedLink) && OtherName(a.stagedManifest)
    ensures Adoptable(files, root, a)
  {
    PrepareIsIdle(files, root);
    assert AreNames(root);
  }

  lemma NewNames()
    ensures IsName("run-2") && IsName(".current.1.new") && IsName(".current.sha256.1.new")
    ensures OtherName(".current.1.new") && OtherName(".current.sha256.1.new") && ".current.1.new" != ".current.sha256.1.new"
  {
    assert |".current.1.new"| == 14 && |".current.sha256.1.new"| == 21;
  }

  lemma LeftOverHolds(run: string, link: string, manifest: string)
    requires OtherName(link) && OtherName(manifest)
    ensures var files, root := LeftOver(), [PRIVATE];
            && IsDirectory(files, root) && Private(files, root, PRIVATE_DIRECTORY)
            && IsDirectory(files, root + [VERSIONS]) && Private(files, root + [VERSIONS], PRIVATE_DIRECTORY)
            && VersionDirectory(root, run) !in files && root + [link] !in files && root + [manifest] !in files
  {
    assert [PRIVATE] + [VERSIONS] == [PRIVATE, VERSIONS] && VersionDirectory([PRIVATE], run) == [PRIVATE, VERSIONS, run];
    assert [PRIVATE] + [link] == [PRIVATE, link] && [PRIVATE] + [manifest] == [PRIVATE, manifest];
    assert [PRIVATE, link][1] == link && [PRIVATE, manifest][1] == manifest;
  }

  lemma LeftOverIsAdoptable(a: Adoption)
    requires IsName(a.run) && a.chosen.Keys == ALL_NAMES
    requires IsName(a.stagedLink) && IsName(a.stagedManifest) && a.stagedLink != a.stagedManifest
    requires OtherName(a.stagedLink) && OtherName(a.stagedManifest)
    ensures Adoptable(LeftOver(), [PRIVATE], a)
  {
    LeftOverIsWellFormed();
    LeftOverHolds(a.run, a.stagedLink, a.stagedManifest);
    AdoptableAsItIs(LeftOver(), [PRIVATE], a);
  }

  /** Without the condition the answer changes: making the version directory turns one refusal into another. */
  lemma LeftOverLinkComesAlive(host: Host, chosen: map<string, Location>, text: string)
    requires Lawful(host) && chosen.Keys == ALL_NAMES
    ensures var a := Adoption("run-2", chosen, ".current.1.new", ".current.sha256.1.new");
            var after := CrashPoint(Prepare(LeftOver(), [PRIVATE]).0, [PRIVATE], a, text, 1);
            && WellFormed(LeftOver()) && Verify(host, LeftOver(), [PRIVATE], None) == Err(CurrentMissing)
            && WellFormed(after) && Verify(host, after, [PRIVATE], None) == Err(CurrentInvalid)
  {
    var a := Adoption("run-2", chosen, ".current.1.new", ".current.sha256.1.new");
    NewNames();
    LeftOverIsAdoptable(a);
    assert [PRIVATE] + [CURRENT] == [PRIVATE, CURRENT] && [PRIVATE] + [MANIFEST] == [PRIVATE, MANIFEST] && [PRIVATE] + [VERSIONS] == [PRIVATE, VERSIONS];
    VersionLinkComesAlive(host, LeftOver(), [PRIVATE], a, text);
  }
}
