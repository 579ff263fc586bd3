/**
  Splitting, joining and ordering of byte strings and paths, and sorting by a strict order.
*/
module Text {

  // ---- White space -------------------------------------------------------------------------------

  /** The characters `str::trim` removes: the Unicode White_Space property. */
  predicate IsWhiteSpace(c: char) {
    || '\U{0009}' <= c <= '\U{000D}' || c == ' ' || c == '\U{0085}' || c == '\U{00A0}' || c == '\U{1680}'
    || '\U{2000}' <= c <= '\U{200A}' || c == '\U{2028}' || c == '\U{2029}' || c == '\U{202F}' || c == '\U{205F}' || c == '\U{3000}'
  }

  /** `value.trim().is_empty()` */
  predicate IsBlank(value: string) {
    forall i :: 0 <= i < |value| ==> IsWhiteSpace(value[i])
  }

  // ---- Split and join ---------------------------------------------------------------------------

  function Split(s: string, sep: char): (parts: seq<string>)
    ensures parts != []
  {
    if s == [] then [[]]
    else
      var rest := Split(s[1..], sep);
      if s[0] == sep then [[]] + rest else [[s[0]] + rest[0]] + rest[1..]
  }

  function Join(parts: seq<string>, sep: char): string
    requires parts != []
  {
    if |parts| == 1 then parts[0] else parts[0] + [sep] + Join(parts[1..], sep)
  }

  lemma JoinPrepend(c: char, parts: seq<string>, sep: char)
    requires parts != []
    ensures Join([[c] + parts[0]] + parts[1..], sep) == [c] + Join(parts, sep)
  {
    var longer := [[c] + parts[0]] + parts[1..];
    assert longer[1..] == parts[1..];
    if |parts| > 1 {
      assert [c] + (parts[0] + [sep] + Join(parts[1..], sep)) == [c] + parts[0] + [sep] + Join(parts[1..], sep);
    }
  }

  lemma {:induction false} JoinInvertsSplit(s: string, sep: char)
    ensures Join(Split(s, sep), sep) == s
    ensures forall i :: 0 <= i < |Split(s, sep)| ==> sep !in Split(s, sep)[i]
  {
    if s != [] {
      JoinInvertsSplit(s[1..], sep);
      var rest := Split(s[1..], sep);
      assert s == [s[0]] + s[1..];
      if s[0] == sep {
        assert Split(s, sep)[1..] == rest;
      } else {
        JoinPrepend(s[0], rest, sep);
      }
    }
  }

  lemma {:induction false} SplitAtFirst(head: string, tail: string, sep: char)
    requires sep !in head
    ensures Split(head + [sep] + tail, sep) == [head] + Split(tail, sep)
    decreases |head|
  {
    var s := head + [sep] + tail;
    if head == [] {
      assert s[1..] == tail;
    } else {
      assert s[1..] == head[1..] + [sep] + tail;
      SplitAtFirst(head[1..], tail, sep);
      assert [head[0]] + head[1..] == head;
    }
  }

  lemma {:induction false} SplitWithout(s: string, sep: char)
    requires sep !in s
    ensures Split(s, sep) == [s]
  {
    if s != [] {
      SplitWithout(s[1..], sep);
      assert [s[0]] + s[1..] == s;
    }
  }

  lemma {:induction false} SplitInvertsJoin(parts: seq<string>, sep: char)
    requires parts != [] && forall i :: 0 <= i < |parts| ==> sep !in parts[i]
    ensures Split(Join(parts, sep), sep) == parts
    decreases |parts|
  {
    if |parts| == 1 {
      SplitWithout(parts[0], sep);
    } else {
      SplitInvertsJoin(parts[1..], sep);
      SplitAtFirst(parts[0], Join(parts[1..], sep), sep);
    }
  }

  /** Text up to the first separator, and what follows it, are determined. */
  lemma {:induction false} CutAt(a: string, b: string, x: string, y: string, sep: char)
    requires sep !in a && sep !in b && a + [sep] + x == b + [sep] + y
    ensures a == b && x == y
    decreases |a|
  {
    var s, t := a + [sep] + x, b + [sep] + y;
    assert s[0] == t[0];
    if a == [] || b == [] {
      assert a == [] && b == [];
      assert s[1..] == x && t[1..] == y;
    } else {
      assert s[1..] == a[1..] + [sep] + x && t[1..] == b[1..] + [sep] + y;
      CutAt(a[1..], b[1..], x, y, sep);
      assert a == [a[0]] + a[1..] && b == [b[0]] + b[1..];
    }
  }

  lemma {:induction false} JoinAvoids(parts: seq<string>, sep: char, c: char)
    requires parts != [] && c != sep && forall i :: 0 <= i < |parts| ==> c !in parts[i]
    ensures c !in Join(parts, sep)
    decreases |parts|
  {
    if |parts| > 1 {
      JoinAvoids(parts[1..], sep, c);
    }
  }

  // ---- Orders -----------------------------------------------------------------------------------

  /** Byte-wise lexicographic order. */
  predicate StringLess(a: string, b: string) {
    b != [] && (a == [] || a[0] < b[0] || (a[0] == b[0] && StringLess(a[1..], b[1..])))
  }

  /** Component-wise order of paths. */
  predicate PathLess(a: seq<string>, b: seq<string>) {
    b != [] && (a == [] || StringLess(a[0], b[0]) || (a[0] == b[0] && PathLess(a[1..], b[1..])))
  }

  lemma {:induction false} StringLessTotal(a: string, b: string)
    ensures StringLess(a, b) || StringLess(b, a) || a == b
    ensures StringLess(a, b) ==> !StringLess(b, a)
    ensures !StringLess(a, a)
    decreases |a|
  {
    if a != [] {
      StringLessTotal(a[1..], a[1..]);
      if b != [] {
        StringLessTotal(a[1..], b[1..]);
        assert a == [a[0]] + a[1..] && b == [b[0]] + b[1..];
      }
    }
  }

  lemma {:induction false} StringLessTransitive(a: string, b: string, c: string)
    requires StringLess(a, b) && StringLess(b, c)
    ensures StringLess(a, c)
    decreases |a|
  {
    if a != [] && a[0] == b[0] == c[0] {
      StringLessTransitive(a[1..], b[1..], c[1..]);
    }
  }

  lemma {:induction false} PathLessTotal(a: seq<string>, b: seq<string>)
    ensures PathLess(a, b) || PathLess(b, a) || a == b
    ensures PathLess(a, b) ==> !PathLess(b, a)
    decreases |a|
  {
    if a != [] && b != [] {
      StringLessTotal(a[0], b[0]);
      StringLessTotal(b[0], a[0]);
      PathLessTotal(a[1..], b[1..]);
      assert a == [a[0]] + a[1..] && b == [b[0]] + b[1..];
    }
  }

  lemma {:induction false} PathLessTransitive(a: seq<string>, b: seq<string>, c: seq<string>)
    requires PathLess(a, b) && PathLess(b, c)
    ensures PathLess(a, c)
    decreases |a|
  {
    if a != [] {
      if StringLess(a[0], b[0]) && StringLess(b[0], c[0]) {
        StringLessTransitive(a[0], b[0], c[0]);
      } else if a[0] == b[0] == c[0] {
        PathLessTransitive(a[1..], b[1..], c[1..]);
      }
    }
  }

  // ---- Sorting by path --------------------------------------------------------------------------

  /** Something filed under a path. */
  datatype Filed<T> = Filed(path: seq<string>, value: T)

  predicate Sorted<T>(s: seq<Filed<T>>) {
    forall i, j :: 0 <= i < j < |s| ==> PathLess(s[i].path, s[j].path)
  }

  /** Every element occurs once, and no two share a path. */
  ghost predicate Keyed<T>(m: multiset<Filed<T>>) {
    (forall x :: x in m ==> m[x] == 1) && (forall x, y :: x in m && y in m && x.path == y.path ==> x == y)
  }

  function Insert<T>(x: Filed<T>, s: seq<Filed<T>>): seq<Filed<T>> {
    if s == [] then [x]
    else if PathLess(x.path, s[0].path) then [x] + s
    else [s[0]] + Insert(x, s[1..])
  }

  function Sort<T>(s: seq<Filed<T>>): seq<Filed<T>> {
    if s == [] then [] else Insert(s[0], Sort(s[1..]))
  }

  lemma {:induction false} InsertAdds<T>(x: Filed<T>, s: seq<Filed<T>>)
    ensures multiset(Insert(x, s)) == multiset(s) + multiset{x}
    decreases |s|
  {
    if s != [] && !PathLess(x.path, s[0].path) {
      InsertAdds(x, s[1..]);
      assert s == [s[0]] + s[1..];
    }
  }

  lemma {:induction false} InsertSorts<T>(x: Filed<T>, s: seq<Filed<T>>)
    requires Sorted(s) && forall i :: 0 <= i < |s| ==> s[i].path != x.path
    ensures Sorted(Insert(x, s))
    decreases |s|
  {
    if s != [] {
      if PathLess(x.path, s[0].path) {
        forall j | 0 < j < |s| ensures PathLess(x.path, s[j].path) {
          PathLessTransitive(x.path, s[0].path, s[j].path);
        }
      } else {
        InsertSorts(x, s[1..]);
        InsertAdds(x, s[1..]);
        var t := Insert(x, s[1..]);
        PathLessTotal(x.path, s[0].path);
        forall j | 0 <= j < |t| ensures PathLess(s[0].path, t[j].path) {
          assert t[j] in multiset(t);
          if t[j] != x {
            assert t[j] in multiset(s[1..]);
            assert t[j] in s[1..];
          }
        }
      }
    }
  }

  lemma {:induction false} SortPermutes<T>(s: seq<Filed<T>>)
    ensures multiset(Sort(s)) == multiset(s)
    decreases |s|
  {
    if s != [] {
      SortPermutes(s[1..]);
      InsertAdds(s[0], Sort(s[1..]));
      assert s == [s[0]] + s[1..];
    }
  }

  lemma KeyedTail<T>(s: seq<Filed<T>>)
    requires s != [] && Keyed(multiset(s))
    ensures Keyed(multiset(s[1..])) && forall y :: y in multiset(s[1..]) ==> y.path != s[0].path
  {
    assert s == [s[0]] + s[1..];
    var m, tail := multiset(s), multiset(s[1..]);
    assert m == multiset{s[0]} + tail;
    assert m[s[0]] == 1 && tail[s[0]] == 0;
    forall y | y in tail ensures tail[y] == 1 && y.path != s[0].path {
      assert y in m && m[y] == 1;
    }
  }

  lemma {:induction false} SortSorts<T>(s: seq<Filed<T>>)
    requires Keyed(multiset(s))
    ensures Sorted(Sort(s))
    decreases |s|
  {
    if s != [] {
      KeyedTail(s);
      SortSorts(s[1..]);
      SortPermutes(s[1..]);
      var t := Sort(s[1..]);
      forall i | 0 <= i < |t| ensures t[i].path != s[0].path {
        assert t[i] in multiset(t);
      }
      InsertSorts(s[0], t);
    }
  }

  /** A sorted sequence is determined by the set of its elements. */
  lemma {:induction false} SortedUnique<T>(a: seq<Filed<T>>, b: seq<Filed<T>>)
    requires Sorted(a) && Sorted(b)
    requires forall x :: x in a <==> x in b
    ensures a == b
    decreases |a|
  {
    assert a == [] || a[0] in b;
    assert b == [] || b[0] in a;
    if a != [] {
      PathLessTotal(a[0].path, b[0].path);
      assert a[0] == b[0];
      forall x ensures x in a[1..] <==> x in b[1..] {
        TailMembers(a, x);
        TailMembers(b, x);
      }
      SortedUnique(a[1..], b[1..]);
      assert a == [a[0]] + a[1..] && b == [b[0]] + b[1..];
    }
  }

  lemma TailMembers<T>(s: seq<Filed<T>>, x: Filed<T>)
    requires Sorted(s) && s != []
    ensures x in s[1..] <==> x in s && x != s[0]
  {
    PathLessTotal(x.path, x.path);
    if x in s && x != s[0] {
      var i :| 0 <= i < |s| && s[i] == x;
      assert s[1..][i - 1] == x;
    }
  }

  lemma SortKeepsMembers<T>(s: seq<Filed<T>>, x: Filed<T>)
    ensures x in Sort(s) <==> x in s
  {
    SortPermutes(s);
    assert x in Sort(s) <==> x in multiset(Sort(s));
  }

  /** Sorting forgets the order of its input: equal members sort to equal sequences. */
  lemma SortDependsOnMembers<T>(a: seq<Filed<T>>, b: seq<Filed<T>>)
    requires Keyed(multiset(a)) && Keyed(multiset(b)) && forall x :: x in a <==> x in b
    ensures Sort(a) == Sort(b)
  {
    SortSorts(a);
    SortSorts(b);
    forall x ensures x in Sort(a) <==> x in Sort(b) {
      SortKeepsMembers(a, x);
      SortKeepsMembers(b, x);
    }
    SortedUnique(Sort(a), Sort(b));
  }
}
