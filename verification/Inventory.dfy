/**
  The inventory identity of xtask/src/main.rs: a worklist walk over a directory tree, a sort, and a
  length-framed stream of bytes for the hasher. Names and contents are byte strings.
*/
module Inventory {
  import opened Prelude
  import opened Text

  const VAULT_PASSWORD := ".vault-password"
  const U64_LIMIT := 0x1_0000_0000_0000_0000

  /** Directory entries are kept in the order in which the system lists them. */
  datatype Node = File(content: string) | Directory(entries: seq<Entry>)
  datatype Entry = Entry(name: string, node: Node)

  type Leaf = Filed<string>

  predicate ValidName(name: string) {
    name != "" && '/' !in name && '\0' !in name
  }

  /** What a file system guarantees of a listing, at every level. */
  predicate WellFormed(entries: seq<Entry>) {
    && (forall i :: 0 <= i < |entries| ==> ValidName(entries[i].name))
    && (forall i, j :: 0 <= i < j < |entries| ==> entries[i].name != entries[j].name)
    && (forall i :: 0 <= i < |entries| && entries[i].node.Directory? ==> WellFormed(entries[i].node.entries))
    && (forall i :: 0 <= i < |entries| && entries[i].node.File? ==> |entries[i].node.content| < U64_LIMIT)
  }

  /** The file at a path, following the names; the reference the walk is compared with. */
  function Lookup(entries: seq<Entry>, path: seq<string>): Option<string>
    decreases entries, |path|
  {
    if path == [] || entries == [] then None
    else if entries[0].name != path[0] then Lookup(entries[1..], path)
    else
      match entries[0].node
      case File(content) => if |path| == 1 then Some(content) else None
      case Directory(inner) => Lookup(inner, path[1..])
  }

  /** The files an inventory consists of: everything but the vault password files. */
  predicate Holds(entries: seq<Entry>, leaf: Leaf) {
    leaf.path != [] && leaf.path[|leaf.path| - 1] != VAULT_PASSWORD && Lookup(entries, leaf.path) == Some(leaf.value)
  }

  // ---- The walk as a function -------------------------------------------------------------------

  function LeavesOf(prefix: seq<string>, entry: Entry): seq<Leaf>
    decreases entry, 0
  {
    match entry.node
    case File(content) => if entry.name == VAULT_PASSWORD then [] else [Filed(prefix + [entry.name], content)]
    case Directory(inner) => Leaves(prefix + [entry.name], inner)
  }

  function Leaves(prefix: seq<string>, entries: seq<Entry>): seq<Leaf>
    decreases entries, 1
  {
    if entries == [] then [] else LeavesOf(prefix, entries[0]) + Leaves(prefix, entries[1..])
  }

  // ---- The worklist -----------------------------------------------------------------------------

  datatype Pending = Pending(path: seq<string>, entries: seq<Entry>)

  function PendingLeaves(pending: seq<Pending>): multiset<Leaf> {
    if pending == [] then multiset{}
    else PendingLeaves(pending[..|pending| - 1]) + multiset(Leaves(pending[|pending| - 1].path, pending[|pending| - 1].entries))
  }

  function Size(entries: seq<Entry>): (n: nat)
    ensures n > 0
    decreases entries, 1
  {
    if entries == [] then 1 else EntrySize(entries[0]) + Size(entries[1..])
  }

  function EntrySize(entry: Entry): (n: nat)
    decreases entry, 0
  {
    match entry.node
    case File(_) => 0
    case Directory(inner) => Size(inner)
  }

  function PendingSize(pending: seq<Pending>): nat {
    if pending == [] then 0 else PendingSize(pending[..|pending| - 1]) + Size(pending[|pending| - 1].entries)
  }

  /** The inner loop: the entries of one directory go to the files or to the worklist. */
  method Visit(directory: Pending, files: seq<Leaf>, pending: seq<Pending>) returns (files': seq<Leaf>, pending': seq<Pending>)
    ensures multiset(files') + PendingLeaves(pending') ==
            multiset(files) + PendingLeaves(pending) + multiset(Leaves(directory.path, directory.entries))
    ensures PendingSize(pending') < PendingSize(pending) + Size(directory.entries)
  {
    files', pending' := files, pending;
    var entries := directory.entries;
    ghost var all := multiset(files) + PendingLeaves(pending) + multiset(Leaves(directory.path, entries));
    for i := 0 to |entries|
      invariant multiset(files') + PendingLeaves(pending') + multiset(Leaves(directory.path, entries[i..])) == all
      invariant PendingSize(pending') + Size(entries[i..]) <= PendingSize(pending) + Size(entries)
    {
      var entry := entries[i];
      assert entries[i..][1..] == entries[i + 1..] && entries[i..][0] == entry;
      var path := directory.path + [entry.name];
      if entry.node.Directory? {
        pending' := pending' + [Pending(path, entry.node.entries)];
      } else if entry.name != VAULT_PASSWORD {
        files' := files' + [Filed(path, entry.node.content)];
      }
    }
    assert entries[|entries|..] == [];
  }

  /** The loop of `inventory_identity_hash`: pop a directory, push its directories, keep its files. */
  method Walk(root: seq<Entry>) returns (files: seq<Leaf>)
    ensures multiset(files) == multiset(Leaves([], root))
  {
    var pending := [Pending([], root)];
    files := [];
    assert [] + [Pending([], root)] == pending;
    while pending != []
      invariant multiset(files) + PendingLeaves(pending) == multiset(Leaves([], root))
      decreases PendingSize(pending)
    {
      var directory := pending[|pending| - 1];
      files, pending := Visit(directory, files, pending[..|pending| - 1]);
    }
  }

  // ---- The walk collects exactly the files ------------------------------------------------------

  ghost predicate Named(entries: seq<Entry>, name: string) {
    exists i :: 0 <= i < |entries| && entries[i].name == name
  }

  /** A leaf lies below the prefix, under the name of one of the entries. */
  lemma {:induction false} LeafBelow(prefix: seq<string>, entries: seq<Entry>, x: Leaf)
    requires x in Leaves(prefix, entries)
    ensures |x.path| > |prefix| && x.path[..|prefix|] == prefix && Named(entries, x.path[|prefix|])
    decreases entries, 1
  {
    if x in LeavesOf(prefix, entries[0]) {
      LeafBelowEntry(prefix, entries[0], x);
      assert entries[0].name == x.path[|prefix|];
    } else {
      LeafBelow(prefix, entries[1..], x);
      var i :| 0 <= i < |entries[1..]| && entries[1..][i].name == x.path[|prefix|];
      assert entries[i + 1].name == x.path[|prefix|];
    }
  }

  lemma {:induction false} LeafBelowEntry(prefix: seq<string>, entry: Entry, x: Leaf)
    requires x in LeavesOf(prefix, entry)
    ensures |x.path| > |prefix| && x.path[..|prefix|] == prefix && x.path[|prefix|] == entry.name
    decreases entry, 0
  {
    if entry.node.Directory? {
      LeafBelow(prefix + [entry.name], entry.node.entries, x);
      assert x.path[..|prefix|] == x.path[..|prefix| + 1][..|prefix|] == prefix;
      assert x.path[|prefix|] == x.path[..|prefix| + 1][|prefix|];
    }
  }

  /** The walk below a prefix finds a file exactly where the reference finds it. */
  lemma {:induction false} LeavesAreHeld(prefix: seq<string>, entries: seq<Entry>, p: seq<string>, c: string)
    requires WellFormed(entries)
    ensures Filed(prefix + p, c) in Leaves(prefix, entries) <==> Holds(entries, Filed(p, c))
    decreases entries, 1
  {
    var x := Filed(prefix + p, c);
    if entries == [] {
    } else if p == [] {
      if x in Leaves(prefix, entries) {
        LeafBelow(prefix, entries, x);
      }
    } else {
      assert x.path[|prefix|] == p[0];
      if p[0] == entries[0].name {
        EntryIsHeld(prefix, entries[0], p, c);
        if x in Leaves(prefix, entries[1..]) {
          LeafBelow(prefix, entries[1..], x);
        }
      } else {
        LeavesAreHeld(prefix, entries[1..], p, c);
        if x in LeavesOf(prefix, entries[0]) {
          LeafBelowEntry(prefix, entries[0], x);
        }
      }
    }
  }

  lemma {:induction false} EntryIsHeld(prefix: seq<string>, entry: Entry, p: seq<string>, c: string)
    requires WellFormed([entry]) && p != [] && p[0] == entry.name
    ensures Filed(prefix + p, c) in LeavesOf(prefix, entry) <==> Holds([entry], Filed(p, c))
    decreases entry, 0
  {
    match entry.node
    case File(content) =>
      assert prefix + p == prefix + [entry.name] <==> p == [entry.name] by {
        assert (prefix + p)[|prefix|..] == p && (prefix + [entry.name])[|prefix|..] == [entry.name];
      }
    case Directory(inner) =>
      assert [entry][0].node.entries == inner;
      LeavesAreHeld(prefix + [entry.name], inner, p[1..], c);
      assert prefix + [entry.name] + p[1..] == prefix + p;
      assert Lookup([entry], p) == Lookup(inner, p[1..]);
      assert p[1..] != [] ==> p[1..][|p[1..]| - 1] == p[|p| - 1];
  }

  lemma {:induction false} LeavesOnce(prefix: seq<string>, entries: seq<Entry>, x: Leaf)
    requires WellFormed(entries)
    ensures multiset(Leaves(prefix, entries))[x] <= 1
    decreases entries, 1
  {
    if entries != [] {
      LeavesOnce(prefix, entries[1..], x);
      EntryOnce(prefix, entries[0], x);
      if x in LeavesOf(prefix, entries[0]) && x in Leaves(prefix, entries[1..]) {
        LeafBelowEntry(prefix, entries[0], x);
        LeafBelow(prefix, entries[1..], x);
      }
    }
  }

  lemma {:induction false} EntryOnce(prefix: seq<string>, entry: Entry, x: Leaf)
    requires entry.node.Directory? ==> WellFormed(entry.node.entries)
    ensures multiset(LeavesOf(prefix, entry))[x] <= 1
    decreases entry, 0
  {
    if entry.node.Directory? {
      LeavesOnce(prefix + [entry.name], entry.node.entries, x);
    }
  }

  lemma LeavesAreKeyed(root: seq<Entry>)
    requires WellFormed(root)
    ensures Keyed(multiset(Leaves([], root)))
    ensures forall x :: x in Leaves([], root) <==> Holds(root, x)
  {
    var m := multiset(Leaves([], root));
    forall x: Leaf ensures x in Leaves([], root) <==> Holds(root, x) ensures x in m ==> m[x] == 1 {
      assert [] + x.path == x.path;
      LeavesAreHeld([], root, x.path, x.value);
      LeavesOnce([], root, x);
    }
  }

  // ---- Framing ----------------------------------------------------------------------------------

  /** Big-endian bytes of a length. */
  function BigEndian(n: nat, k: nat): (b: string)
    ensures |b| == k
  {
    if k == 0 then [] else BigEndian(n / 256, k - 1) + [(n % 256) as char]
  }

  function Pow256(k: nat): (p: nat)
    ensures p > 0
  {
    if k == 0 then 1 else 256 * Pow256(k - 1)
  }

  lemma {:induction false} BigEndianInjective(m: nat, n: nat, k: nat)
    requires m < Pow256(k) && n < Pow256(k) && BigEndian(m, k) == BigEndian(n, k)
    ensures m == n
    decreases k
  {
    if k > 0 {
      var x, y := BigEndian(m, k), BigEndian(n, k);
      assert x[..k - 1] == BigEndian(m / 256, k - 1) && y[..k - 1] == BigEndian(n / 256, k - 1);
      assert x[k - 1] == y[k - 1];
      BigEndianInjective(m / 256, n / 256, k - 1);
    }
  }

  /** One record: the relative path, a zero byte, the content length and the content. */
  function Frame(leaf: Leaf): string
    requires leaf.path != []
  {
    Join(leaf.path, '/') + ['\0'] + BigEndian(|leaf.value|, 8) + leaf.value
  }

  predicate Framable(leaf: Leaf) {
    leaf.path != [] && (forall i :: 0 <= i < |leaf.path| ==> ValidName(leaf.path[i])) && |leaf.value| < U64_LIMIT
  }

  predicate AllFramable(leaves: seq<Leaf>) {
    forall i :: 0 <= i < |leaves| ==> Framable(leaves[i])
  }

  function Stream(leaves: seq<Leaf>): string
    requires AllFramable(leaves)
  {
    if leaves == [] then [] else Frame(leaves[0]) + Stream(leaves[1..])
  }

  lemma PrefixCut(p: string, q: string, x: string, y: string)
    requires |p| == |q| && p + x == q + y
    ensures p == q && x == y
  {
    assert (p + x)[..|p|] == p && (q + y)[..|q|] == q;
    assert (p + x)[|p|..] == x && (q + y)[|q|..] == y;
  }

  lemma BodyCut(a: string, b: string, x: string, y: string)
    requires |a| < U64_LIMIT && |b| < U64_LIMIT
    requires BigEndian(|a|, 8) + (a + x) == BigEndian(|b|, 8) + (b + y)
    ensures a == b && x == y
  {
    PrefixCut(BigEndian(|a|, 8), BigEndian(|b|, 8), a + x, b + y);
    assert Pow256(8) == U64_LIMIT by { assert Pow256(4) == 0x1_0000_0000; }
    BigEndianInjective(|a|, |b|, 8);
    PrefixCut(a, b, x, y);
  }

  lemma FrameParts(a: Leaf, x: string)
    requires a.path != []
    ensures Frame(a) + x == Join(a.path, '/') + ['\0'] + (BigEndian(|a.value|, 8) + (a.value + x))
  {
  }

  /** A record can be read back from the front of a stream, whatever follows it. */
  lemma FrameCut(a: Leaf, b: Leaf, x: string, y: string)
    requires Framable(a) && Framable(b) && Frame(a) + x == Frame(b) + y
    ensures a == b && x == y
  {
    JoinAvoids(a.path, '/', '\0');
    JoinAvoids(b.path, '/', '\0');
    var bodyA, bodyB := BigEndian(|a.value|, 8) + (a.value + x), BigEndian(|b.value|, 8) + (b.value + y);
    FrameParts(a, x);
    FrameParts(b, y);
    CutAt(Join(a.path, '/'), Join(b.path, '/'), bodyA, bodyB, '\0');
    BodyCut(a.value, b.value, x, y);
    SplitInvertsJoin(a.path, '/');
    SplitInvertsJoin(b.path, '/');
  }

  lemma {:induction false} StreamInjective(a: seq<Leaf>, b: seq<Leaf>)
    requires AllFramable(a) && AllFramable(b) && Stream(a) == Stream(b)
    ensures a == b
    decreases |a|
  {
    if a != [] && b != [] {
      FrameCut(a[0], b[0], Stream(a[1..]), Stream(b[1..]));
      StreamInjective(a[1..], b[1..]);
      assert a == [a[0]] + a[1..] && b == [b[0]] + b[1..];
    }
  }

  // ---- The identity -----------------------------------------------------------------------------

  lemma {:induction false} LookupIsFramable(entries: seq<Entry>, path: seq<string>)
    requires WellFormed(entries) && Lookup(entries, path).Some?
    ensures Framable(Filed(path, Lookup(entries, path).value))
    decreases entries, |path|
  {
    if entries[0].name != path[0] {
      LookupIsFramable(entries[1..], path);
    } else if entries[0].node.Directory? {
      LookupIsFramable(entries[0].node.entries, path[1..]);
      assert path == [path[0]] + path[1..];
    }
  }

  lemma LeavesAreFramable(root: seq<Entry>, leaves: seq<Leaf>)
    requires WellFormed(root) && multiset(leaves) == multiset(Leaves([], root))
    ensures AllFramable(leaves)
  {
    LeavesAreKeyed(root);
    forall i | 0 <= i < |leaves| ensures Framable(leaves[i]) {
      assert leaves[i] in multiset(leaves);
      assert leaves[i] in Leaves([], root);
      LookupIsFramable(root, leaves[i].path);
    }
  }

  /** The bytes fed to the hasher for a tree. */
  ghost function IdentityBytes(root: seq<Entry>): string
    requires WellFormed(root)
  {
    SortPermutes(Leaves([], root));
    LeavesAreFramable(root, Sort(Leaves([], root)));
    Stream(Sort(Leaves([], root)))
  }

  /** The four updates made for one file. */
  method FeedOne(bytes: string, leaf: Leaf) returns (bytes': string)
    requires Framable(leaf)
    ensures bytes' == bytes + Frame(leaf)
  {
    bytes' := bytes + Join(leaf.path, '/');
    bytes' := bytes' + ['\0'];
    bytes' := bytes' + BigEndian(|leaf.value|, 8);
    bytes' := bytes' + leaf.value;
  }

  lemma StreamFrom(files: seq<Leaf>, i: nat, bytes: string)
    requires AllFramable(files) && i < |files|
    ensures bytes + Stream(files[i..]) == bytes + Frame(files[i]) + Stream(files[i + 1..])
  {
    assert files[i..][1..] == files[i + 1..];
    assert bytes + (Frame(files[i]) + Stream(files[i + 1..])) == bytes + Frame(files[i]) + Stream(files[i + 1..]);
  }

  /** The feeding loop: path, zero byte, length and content of each file in turn. */
  method Feed(files: seq<Leaf>) returns (bytes: string)
    requires AllFramable(files)
    ensures bytes == Stream(files)
  {
    bytes := [];
    for i := 0 to |files|
      invariant bytes + Stream(files[i..]) == Stream(files)
    {
      StreamFrom(files, i, bytes);
      bytes := FeedOne(bytes, files[i]);
    }
    assert files[|files|..] == [];
  }

  /** `inventory_identity_hash` up to the digest: walk, sort, and feed the records in order. */
  method Identity(root: seq<Entry>) returns (bytes: string)
    requires WellFormed(root)
    ensures bytes == IdentityBytes(root)
  {
    var files := Walk(root);
    LeavesAreKeyed(root);
    assert forall x: Leaf :: x in files <==> x in multiset(files);
    SortDependsOnMembers(files, Leaves([], root));
    files := Sort(files);
    SortPermutes(Leaves([], root));
    LeavesAreFramable(root, files);
    bytes := Feed(files);
  }

  /** Two trees are the same inventory when they hold the same files, in whatever order they are listed. */
  ghost predicate SameFiles(a: seq<Entry>, b: seq<Entry>) {
    forall x: Leaf :: Holds(a, x) <==> Holds(b, x)
  }

  /** The sorted leaves are framable, in order, and exactly the files held. */
  lemma SortedLeaves(root: seq<Entry>)
    requires WellFormed(root)
    ensures var s := Sort(Leaves([], root)); AllFramable(s) && Sorted(s) && forall leaf: Leaf :: leaf in s <==> Holds(root, leaf)
  {
    var x := Leaves([], root);
    LeavesAreKeyed(root);
    SortSorts(x);
    SortPermutes(x);
    LeavesAreFramable(root, Sort(x));
    forall leaf: Leaf ensures leaf in Sort(x) <==> Holds(root, leaf) {
      SortKeepsMembers(x, leaf);
    }
  }

  /** The identity is exact: the hasher sees the same bytes if and only if the trees hold the same files. */
  lemma IdentityIsExact(a: seq<Entry>, b: seq<Entry>)
    requires WellFormed(a) && WellFormed(b)
    ensures IdentityBytes(a) == IdentityBytes(b) <==> SameFiles(a, b)
  {
    var x, y := Sort(Leaves([], a)), Sort(Leaves([], b));
    SortedLeaves(a);
    SortedLeaves(b);
    SortedStreamsAgree(x, y);
    if x == y {
      forall leaf: Leaf ensures Holds(a, leaf) <==> Holds(b, leaf) {
        assert leaf in x <==> leaf in y;
      }
    }
  }

  lemma SortedStreamsAgree(x: seq<Leaf>, y: seq<Leaf>)
    requires AllFramable(x) && AllFramable(y) && Sorted(x) && Sorted(y)
    ensures Stream(x) == Stream(y) <==> x == y
    ensures (forall leaf :: leaf in x <==> leaf in y) ==> x == y
  {
    if Stream(x) == Stream(y) {
      StreamInjective(x, y);
    }
    if forall leaf :: leaf in x <==> leaf in y {
      SortedUnique(x, y);
    }
  }
}
