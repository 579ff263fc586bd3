/** The bytes under which tools/update_credential_registry_current.py hashes a credential file or tree. */
module CredentialTree {
  import opened Text
  import opened Manifest

  const HEADER := "labweaver-credential-registry-tree-v1\n"

  datatype Item = DirectoryItem(mode: nat) | FileItem(mode: nat, content: string)

  /** Everything below a tree's root, each entry once, in the order the system lists it. */
  datatype Target = SingleFile(content: string) | Tree(items: seq<Filed<Item>>)

  /** What one entry contributes: its kind, its permission bits and the digest of its content. */
  datatype Stamp = Stamp(directory: bool, mode: nat, digest: string)

  function StampOf(sha: string -> string, item: Item): Stamp {
    match item
    case DirectoryItem(mode) => Stamp(true, mode, "")
    case FileItem(mode, content) => Stamp(false, mode, sha(content))
  }

  function Stamps(sha: string -> string, items: seq<Filed<Item>>): seq<Filed<Stamp>> {
    seq(|items|, i requires 0 <= i < |items| => Filed(items[i].path, StampOf(sha, items[i].value)))
  }

  function OctalDigit(d: nat): (c: char)
    requires d < 8
    ensures '0' <= c <= '7' && c as int - '0' as int == d
  {
    '0' + d as char
  }

  /** format(mode, "04o") for twelve permission bits. */
  function Octal(mode: nat): string {
    [OctalDigit(mode / 512 % 8), OctalDigit(mode / 64 % 8), OctalDigit(mode / 8 % 8), OctalDigit(mode % 8)]
  }

  function Head(stamp: Filed<Stamp>): string
    requires stamp.path != []
  {
    (if stamp.value.directory then "d/" else "f/") + Join(stamp.path, '/')
  }

  function FrameLine(stamp: Filed<Stamp>): string
    requires stamp.path != []
  {
    Head(stamp) + ['\0'] + Octal(stamp.value.mode) + ['\0'] + stamp.value.digest + ['\n']
  }

  predicate ValidStamp(stamp: Filed<Stamp>) {
    && stamp.path != []
    && (forall i :: 0 <= i < |stamp.path| ==> '/' !in stamp.path[i] && '\0' !in stamp.path[i])
    && stamp.value.mode < 0x1000
    && (if stamp.value.directory then stamp.value.digest == "" else IsDigest(stamp.value.digest))
  }

  predicate ValidStamps(stamps: seq<Filed<Stamp>>) {
    forall i :: 0 <= i < |stamps| ==> ValidStamp(stamps[i])
  }

  function Lines(stamps: seq<Filed<Stamp>>): string
    requires ValidStamps(stamps)
  {
    if stamps == [] then [] else FrameLine(stamps[0]) + Lines(stamps[1..])
  }

  /** What a listing below a tree guarantees. */
  ghost predicate ValidTree(items: seq<Filed<Item>>) {
    && Keyed(multiset(items))
    && forall i :: 0 <= i < |items| ==>
         && items[i].path != [] && items[i].value.mode < 0x1000
         && forall j :: 0 <= j < |items[i].path| ==> '/' !in items[i].path[j] && '\0' !in items[i].path[j]
  }

  /** The assumption on SHA-256: sixty-four lower-case hexadecimal digits. */
  ghost predicate IsHash(sha: string -> string) {
    forall s :: IsDigest(sha(s))
  }

  lemma SortedStampsAreValid(sha: string -> string, items: seq<Filed<Item>>)
    requires IsHash(sha) && ValidTree(items)
    ensures ValidStamps(Stamps(sha, Sort(items)))
  {
    SortPermutes(items);
    var s := Sort(items);
    forall i | 0 <= i < |s| ensures ValidStamp(Stamps(sha, s)[i]) {
      assert s[i] in multiset(s);
      assert s[i] in items;
    }
  }

  ghost function ContentBytes(sha: string -> string, target: Target): string
    requires IsHash(sha) && (target.Tree? ==> ValidTree(target.items))
  {
    match target
    case SingleFile(content) => content
    case Tree(items) =>
      SortedStampsAreValid(sha, items);
      HEADER + Lines(Stamps(sha, Sort(items)))
  }

  method StampAll(sha: string -> string, children: seq<Filed<Item>>) returns (entries: seq<Filed<Stamp>>)
    ensures entries == Stamps(sha, children)
  {
    entries := [];
    for i := 0 to |children|
      invariant entries == Stamps(sha, children[..i])
    {
      var child := children[i];
      if child.value.DirectoryItem? {
        entries := entries + [Filed(child.path, Stamp(true, child.value.mode, ""))];
      } else {
        entries := entries + [Filed(child.path, Stamp(false, child.value.mode, sha(child.value.content)))];
      }
    }
    assert children[..|children|] == children;
  }

  /** `_content_digest` up to the digest: sort the listing, stamp each entry, feed the lines. */
  method Content(sha: string -> string, target: Target) returns (bytes: string)
    requires IsHash(sha) && (target.Tree? ==> ValidTree(target.items))
    ensures bytes == ContentBytes(sha, target)
  {
    if target.SingleFile? {
      return target.content;
    }
    bytes := HEADER;
    var entries := StampAll(sha, Sort(target.items));
    SortedStampsAreValid(sha, target.items);
    for i := 0 to |entries|
      invariant bytes + Lines(entries[i..]) == HEADER + Lines(entries)
    {
      assert entries[i..][1..] == entries[i + 1..];
      ghost var before, rest := bytes, Lines(entries[i + 1..]);
      bytes := bytes + FrameLine(entries[i]);
      assert before + (FrameLine(entries[i]) + rest) == bytes + rest;
    }
    assert entries[|entries|..] == [];
  }

  // ---- The framing is exact ---------------------------------------------------------------------

  lemma OctalInjective(m: nat, n: nat)
    requires m < 0x1000 && n < 0x1000 && Octal(m) == Octal(n)
    ensures m == n
  {
    var x, y := Octal(m), Octal(n);
    assert x[0] == y[0] && x[1] == y[1] && x[2] == y[2] && x[3] == y[3];
    OctalValue(m);
    OctalValue(n);
  }

  lemma OctalValue(m: nat)
    requires m < 0x1000
    ensures m == m / 512 % 8 * 512 + m / 64 % 8 * 64 + m / 8 % 8 * 8 + m % 8
  {
    var p, q, r := m / 8, m / 64, m / 512;
    assert m == 8 * p + m % 8;
    assert p == 8 * q + p % 8;
    assert q == 8 * r + q % 8;
    assert r % 8 == r;
  }

  lemma HeadInjective(a: Filed<Stamp>, b: Filed<Stamp>)
    requires ValidStamp(a) && ValidStamp(b) && Head(a) == Head(b)
    ensures a.path == b.path && a.value.directory == b.value.directory
  {
    assert Head(a)[0] == Head(b)[0];
    assert Head(a)[2..] == Join(a.path, '/') && Head(b)[2..] == Join(b.path, '/');
    SplitInvertsJoin(a.path, '/');
    SplitInvertsJoin(b.path, '/');
  }

  lemma HeadCut(a: Filed<Stamp>, b: Filed<Stamp>, x: string, y: string)
    requires ValidStamp(a) && ValidStamp(b) && Head(a) + ['\0'] + x == Head(b) + ['\0'] + y
    ensures a.path == b.path && a.value.directory == b.value.directory && x == y
  {
    JoinAvoids(a.path, '/', '\0');
    JoinAvoids(b.path, '/', '\0');
    CutAt(Head(a), Head(b), x, y, '\0');
    HeadInjective(a, b);
  }

  lemma ModeCut(m: nat, n: nat, x: string, y: string)
    requires m < 0x1000 && n < 0x1000 && Octal(m) + ['\0'] + x == Octal(n) + ['\0'] + y
    ensures m == n && x == y
  {
    CutAt(Octal(m), Octal(n), x, y, '\0');
    OctalInjective(m, n);
  }

  /** A line as its head, its mode and its end. */
  lemma LineParts(a: Filed<Stamp>, x: string)
    requires a.path != []
    ensures FrameLine(a) + x == Head(a) + ['\0'] + (Octal(a.value.mode) + ['\0'] + (a.value.digest + ['\n'] + x))
  {
  }

  lemma LineCut(a: Filed<Stamp>, b: Filed<Stamp>, x: string, y: string)
    requires ValidStamp(a) && ValidStamp(b) && FrameLine(a) + x == FrameLine(b) + y
    ensures a == b && x == y
  {
    var endA, endB := a.value.digest + ['\n'] + x, b.value.digest + ['\n'] + y;
    LineParts(a, x);
    LineParts(b, y);
    HeadCut(a, b, Octal(a.value.mode) + ['\0'] + endA, Octal(b.value.mode) + ['\0'] + endB);
    ModeCut(a.value.mode, b.value.mode, endA, endB);
    CutAt(a.value.digest, b.value.digest, x, y, '\n');
  }

  lemma {:induction false} LinesInjective(a: seq<Filed<Stamp>>, b: seq<Filed<Stamp>>)
    requires ValidStamps(a) && ValidStamps(b) && Lines(a) == Lines(b)
    ensures a == b
    decreases |a|
  {
    if a != [] && b != [] {
      LineCut(a[0], b[0], Lines(a[1..]), Lines(b[1..]));
      LinesInjective(a[1..], b[1..]);
      assert a == [a[0]] + a[1..] && b == [b[0]] + b[1..];
    }
  }

  lemma StampsFollowItems(sha: string -> string, a: seq<Filed<Item>>, b: seq<Filed<Item>>, x: Filed<Stamp>)
    requires multiset(a) == multiset(b) && x in Stamps(sha, a)
    ensures x in Stamps(sha, b)
  {
    var i :| 0 <= i < |a| && Stamps(sha, a)[i] == x;
    assert a[i] in multiset(b);
    var j :| 0 <= j < |b| && b[j] == a[i];
    assert Stamps(sha, b)[j] == x;
  }

  lemma StampsOfSorted(sha: string -> string, items: seq<Filed<Item>>)
    requires Keyed(multiset(items))
    ensures Sorted(Stamps(sha, Sort(items)))
    ensures forall x :: x in Stamps(sha, Sort(items)) <==> x in Stamps(sha, items)
  {
    SortSorts(items);
    SortPermutes(items);
    forall x ensures x in Stamps(sha, Sort(items)) <==> x in Stamps(sha, items) {
      if x in Stamps(sha, items) {
        StampsFollowItems(sha, items, Sort(items), x);
      }
      if x in Stamps(sha, Sort(items)) {
        StampsFollowItems(sha, Sort(items), items, x);
      }
    }
  }

  /** Two trees feed the hash the same bytes if and only if they hold the same (kind, path, mode, digest) entries. */
  lemma TreeFramingIsExact(sha: string -> string, a: seq<Filed<Item>>, b: seq<Filed<Item>>)
    requires IsHash(sha) && ValidTree(a) && ValidTree(b)
    ensures ContentBytes(sha, Tree(a)) == ContentBytes(sha, Tree(b)) <==>
            forall x :: x in Stamps(sha, a) <==> x in Stamps(sha, b)
  {
    SortedStampsAreValid(sha, a);
    SortedStampsAreValid(sha, b);
    StampsOfSorted(sha, a);
    StampsOfSorted(sha, b);
    var s, t := Stamps(sha, Sort(a)), Stamps(sha, Sort(b));
    if ContentBytes(sha, Tree(a)) == ContentBytes(sha, Tree(b)) {
      assert (HEADER + Lines(s))[|HEADER|..] == Lines(s) && (HEADER + Lines(t))[|HEADER|..] == Lines(t);
      LinesInjective(s, t);
    }
    if forall x :: x in Stamps(sha, a) <==> x in Stamps(sha, b) {
      SortedUnique(s, t);
    }
  }

  /** The bytes of a tree do not depend on the order in which it is listed. */
  lemma SameItemsSameBytes(sha: string -> string, a: seq<Filed<Item>>, b: seq<Filed<Item>>)
    requires IsHash(sha) && ValidTree(a) && ValidTree(b) && forall x :: x in a <==> x in b
    ensures ContentBytes(sha, Tree(a)) == ContentBytes(sha, Tree(b))
  {
    SortDependsOnMembers(a, b);
  }

  /** A file whose content is the very listing of these entries. */
  ghost predicate SpellsOut(content: string, entries: seq<Filed<Stamp>>) {
    exists s :: ValidStamps(s) && Sorted(s) && content == HEADER + Lines(s) && forall x :: x in s <==> x in entries
  }

  /**
    Two targets of any kind feed the hash the same bytes exactly when they are files of the same
    content, trees of the same entries, or a tree and a file that spells its listing out.
  */
  lemma TargetFramingIsExact(sha: string -> string, a: Target, b: Target)
    requires IsHash(sha) && (a.Tree? ==> ValidTree(a.items)) && (b.Tree? ==> ValidTree(b.items))
    ensures ContentBytes(sha, a) == ContentBytes(sha, b) <==>
            match (a, b)
            case (SingleFile(x), SingleFile(y)) => x == y
            case (Tree(x), Tree(y)) => forall e :: e in Stamps(sha, x) <==> e in Stamps(sha, y)
            case (SingleFile(x), Tree(y)) => SpellsOut(x, Stamps(sha, y))
            case (Tree(x), SingleFile(y)) => SpellsOut(y, Stamps(sha, x))
  {
    match (a, b)
    case (SingleFile(x), SingleFile(y)) =>
    case (Tree(x), Tree(y)) => TreeFramingIsExact(sha, x, y);
    case (SingleFile(x), Tree(y)) => FileSpellsTree(sha, x, y);
    case (Tree(x), SingleFile(y)) => FileSpellsTree(sha, y, x);
  }

  /** The two kinds do collide: a file of just the header and the empty tree feed the hash the same bytes. */
  lemma HeaderFileIsEmptyTree(sha: string -> string)
    requires IsHash(sha)
    ensures ValidTree([]) && ContentBytes(sha, SingleFile(HEADER)) == ContentBytes(sha, Tree([]))
  {
    var none: seq<Filed<Stamp>> := [];
    assert Stamps(sha, Sort([])) == none && Lines(none) == "";
    assert HEADER + "" == HEADER;
  }

  lemma FileSpellsTree(sha: string -> string, content: string, items: seq<Filed<Item>>)
    requires IsHash(sha) && ValidTree(items)
    ensures ContentBytes(sha, Tree(items)) == content <==> SpellsOut(content, Stamps(sha, items))
  {
    var s := Stamps(sha, Sort(items));
    SortedStampsAreValid(sha, items);
    StampsOfSorted(sha, items);
    if t :| ValidStamps(t) && Sorted(t) && content == HEADER + Lines(t) && forall x :: x in t <==> x in Stamps(sha, items) {
      SortedUnique(s, t);
    }
  }
}
