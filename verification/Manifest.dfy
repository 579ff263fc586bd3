/**
  The manifest of tools/update_credential_registry_current.py: printing it, parsing it, and what the
  parser accepts.
*/
module Manifest {
  import opened Prelude
  import opened Text

  const NAMES := ["nats-authority-source", "deployment-bundle", "resource-profile", "replay-authentication", "controller-identity"]

  // ---- Python's view of text --------------------------------------------------------------------

  /** `str.isspace`: Unicode white space and the four information separators. */
  predicate IsSpace(c: char) {
    IsWhiteSpace(c) || '\U{001C}' <= c <= '\U{001F}'
  }

  /** The boundaries of `str.splitlines`. */
  predicate IsLineBreak(c: char) {
    || '\U{000A}' <= c <= '\U{000D}' || '\U{001C}' <= c <= '\U{001E}' || c == '\U{0085}' || c == '\U{2028}' || c == '\U{2029}'
  }

  /** Text mode reading turns every \r\n and \r into \n. */
  function UniversalNewlines(s: string): string {
    if s == [] then []
    else if s[0] == '\r' then ['\n'] + UniversalNewlines(if |s| > 1 && s[1] == '\n' then s[2..] else s[1..])
    else [s[0]] + UniversalNewlines(s[1..])
  }

  /** The text up to the first line break. */
  function FirstLine(s: string): (line: string)
    ensures |line| <= |s|
  {
    if s == [] || IsLineBreak(s[0]) then [] else [s[0]] + FirstLine(s[1..])
  }

  function SplitLines(s: string): seq<string>
    decreases |s|
  {
    if s == [] then []
    else
      var line := FirstLine(s);
      if |line| == |s| then [line] else [line] + SplitLines(s[|line| + 1..])
  }

  /** `str.split()`: the maximal runs without white space. */
  function Words(s: string): seq<string>
    decreases |s|
  {
    if s == [] then []
    else if IsSpace(s[0]) then Words(s[1..])
    else
      var word := FirstWord(s);
      [word] + Words(s[|word|..])
  }

  function FirstWord(s: string): (word: string)
    ensures |word| <= |s| && (s != [] && !IsSpace(s[0]) ==> word != [])
  {
    if s == [] || IsSpace(s[0]) then [] else [s[0]] + FirstWord(s[1..])
  }

  // ---- Printing and parsing ---------------------------------------------------------------------

  /** [0-9a-f]{64} */
  predicate IsDigest(s: string) {
    |s| == 64 && forall i :: 0 <= i < |s| ==> '0' <= s[i] <= '9' || 'a' <= s[i] <= 'f'
  }

  function Line(name: string, digest: string): string {
    "current/" + name + " sha256:" + digest
  }

  /** `_manifest`: one line for each entry, each ended by a newline. */
  function Print(names: seq<string>, digests: map<string, string>): string
    requires forall i :: 0 <= i < |names| ==> names[i] in digests
  {
    if names == [] then [] else Line(names[0], digests[names[0]]) + ['\n'] + Print(names[1..], digests)
  }

  predicate HasPrefix(s: string, prefix: string) {
    |prefix| <= |s| && s[..|prefix|] == prefix
  }

  /** What one line says, if it is well formed. */
  function ParseLine(line: string): Option<(string, string)> {
    var parts := Words(line);
    if |parts| != 2 || !HasPrefix(parts[0], "current/") || !HasPrefix(parts[1], "sha256:") then None
    else
      var name, digest := parts[0][8..], parts[1][7..];
      if name !in NAMES || !IsDigest(digest) then None else Some((name, digest))
  }

  /** The parsing loop from some point on: every line well formed, no name twice. */
  function ParseLines(lines: seq<string>, parsed: map<string, string>): Option<map<string, string>> {
    if lines == [] then Some(parsed)
    else
      match ParseLine(lines[0])
      case None => None
      case Some((name, digest)) => if name in parsed then None else ParseLines(lines[1..], parsed[name := digest])
  }

  function Parse(text: string): Option<map<string, string>> {
    var parsed := ParseLines(SplitLines(UniversalNewlines(text)), map[]);
    if parsed.Some? && parsed.value.Keys == (set n | n in NAMES) then parsed else None
  }

  // ---- Round trip -------------------------------------------------------------------------------

  /** Characters that occur in manifest words: no white space, no line break. */
  predicate Solid(s: string) {
    forall i :: 0 <= i < |s| ==> '-' <= s[i] <= 'z'
  }

  lemma NamesAreSolid(name: string)
    requires name in NAMES
    ensures Solid(name)
  {
  }

  lemma {:induction false} NewlinesUnchanged(s: string)
    requires '\r' !in s
    ensures UniversalNewlines(s) == s
  {
    if s != [] {
      NewlinesUnchanged(s[1..]);
      assert s == [s[0]] + s[1..];
    }
  }

  lemma {:induction false} FirstLineIs(line: string, rest: string)
    requires forall i :: 0 <= i < |line| ==> !IsLineBreak(line[i])
    ensures FirstLine(line + ['\n'] + rest) == line
    decreases |line|
  {
    var s := line + ['\n'] + rest;
    if line != [] {
      assert s[1..] == line[1..] + ['\n'] + rest;
      FirstLineIs(line[1..], rest);
      assert line == [line[0]] + line[1..];
    }
  }

  lemma SplitFirstLine(line: string, rest: string)
    requires forall i :: 0 <= i < |line| ==> !IsLineBreak(line[i])
    ensures SplitLines(line + ['\n'] + rest) == [line] + SplitLines(rest)
  {
    FirstLineIs(line, rest);
    assert (line + ['\n'] + rest)[|line| + 1..] == rest;
  }

  lemma {:induction false} FirstWordIs(word: string, rest: string)
    requires Solid(word) && (rest == [] || IsSpace(rest[0]))
    ensures FirstWord(word + rest) == word
    decreases |word|
  {
    if word == [] {
      assert word + rest == rest;
    } else {
      assert (word + rest)[1..] == word[1..] + rest;
      FirstWordIs(word[1..], rest);
      assert word == [word[0]] + word[1..];
    }
  }

  lemma TwoWords(a: string, b: string)
    requires Solid(a) && Solid(b) && a != [] && b != []
    ensures Words(a + " " + b) == [a, b]
  {
    FirstWordIs(a, " " + b);
    assert a + (" " + b) == a + " " + b;
    assert (a + " " + b)[|a|..] == " " + b && (" " + b)[1..] == b;
    FirstWordIs(b, []);
    assert b + [] == b && b[|b|..] == [];
    assert Words(b) == [b];
    assert Words(" " + b) == Words(b);
  }

  /** The two words of a line. */
  lemma LineWords(name: string, digest: string)
    requires Solid(name) && IsDigest(digest)
    ensures Solid("current/" + name) && Solid("sha256:" + digest)
    ensures Words(Line(name, digest)) == ["current/" + name, "sha256:" + digest]
  {
    var p, q := "current/", "sha256:";
    assert Solid(p) && Solid(q);
    TwoWords(p + name, q + digest);
    LineIsTwoWords(name, digest);
  }

  lemma LineIsTwoWords(name: string, digest: string)
    ensures Line(name, digest) == ("current/" + name) + " " + ("sha256:" + digest)
  {
    assert " sha256:" == " " + "sha256:";
  }

  lemma LineParses(name: string, digest: string)
    requires name in NAMES && IsDigest(digest)
    ensures ParseLine(Line(name, digest)) == Some((name, digest))
    ensures forall i :: 0 <= i < |Line(name, digest)| ==> !IsLineBreak(Line(name, digest)[i])
  {
    NamesAreSolid(name);
    LineWords(name, digest);
    var a, b := "current/" + name, "sha256:" + digest;
    assert a[..8] == "current/" && a[8..] == name && b[..7] == "sha256:" && b[7..] == digest;
  }

  predicate Fresh(names: seq<string>, parsed: map<string, string>) {
    && (forall i :: 0 <= i < |names| ==> names[i] in NAMES && names[i] !in parsed)
    && (forall i, j :: 0 <= i < j < |names| ==> names[i] != names[j])
  }

  /** The parsed table once the named entries have been added. */
  function Overlay(parsed: map<string, string>, names: seq<string>, digests: map<string, string>): map<string, string>
    requires forall i :: 0 <= i < |names| ==> names[i] in digests
    decreases |names|
  {
    if names == [] then parsed else Overlay(parsed[names[0] := digests[names[0]]], names[1..], digests)
  }

  lemma {:induction false} PrintParses(names: seq<string>, digests: map<string, string>, parsed: map<string, string>)
    requires Fresh(names, parsed)
    requires forall i :: 0 <= i < |names| ==> names[i] in digests && IsDigest(digests[names[i]])
    ensures ParseLines(SplitLines(Print(names, digests)), parsed) == Some(Overlay(parsed, names, digests))
    decreases |names|
  {
    if names != [] {
      var name, digest, rest := names[0], digests[names[0]], names[1..];
      LineParses(name, digest);
      SplitFirstLine(Line(name, digest), Print(rest, digests));
      var lines := SplitLines(Print(names, digests));
      assert lines[0] == Line(name, digest) && lines[1..] == SplitLines(Print(rest, digests));
      PrintParses(rest, digests, parsed[name := digest]);
    }
  }

  lemma {:induction false} PrintHasNoReturn(names: seq<string>, digests: map<string, string>)
    requires forall i :: 0 <= i < |names| ==> names[i] in NAMES && names[i] in digests && IsDigest(digests[names[i]])
    ensures '\r' !in Print(names, digests)
    decreases |names|
  {
    if names != [] {
      LineParses(names[0], digests[names[0]]);
      assert IsLineBreak('\r');
      PrintHasNoReturn(names[1..], digests);
    }
  }

  lemma {:induction false} OverlayHolds(parsed: map<string, string>, names: seq<string>, digests: map<string, string>)
    requires forall i :: 0 <= i < |names| ==> names[i] in digests
    ensures var all := Overlay(parsed, names, digests);
            && all.Keys == parsed.Keys + (set n | n in names)
            && (forall n :: n in names ==> all[n] == digests[n])
            && (forall n :: n in parsed && n !in names ==> all[n] == parsed[n])
    decreases |names|
  {
    if names != [] {
      OverlayHolds(parsed[names[0] := digests[names[0]]], names[1..], digests);
      assert names == [names[0]] + names[1..];
    }
  }

  lemma PrintedLinesParse(names: seq<string>, digests: map<string, string>)
    requires Fresh(names, map[]) && digests.Keys == set n | n in names
    requires forall n :: n in digests ==> IsDigest(digests[n])
    ensures ParseLines(SplitLines(UniversalNewlines(Print(names, digests))), map[]) == Some(digests)
  {
    PrintParses(names, digests, map[]);
    PrintHasNoReturn(names, digests);
    NewlinesUnchanged(Print(names, digests));
    OverlayHolds(map[], names, digests);
    assert Overlay(map[], names, digests) == digests;
  }

  /** The manifest written for the five entries is read back as exactly those entries. */
  lemma ManifestRoundTrip(digests: map<string, string>)
    requires digests.Keys == set n | n in NAMES
    requires forall n :: n in digests ==> IsDigest(digests[n])
    ensures Parse(Print(NAMES, digests)) == Some(digests)
  {
    assert Fresh(NAMES, map[]);
    PrintedLinesParse(NAMES, digests);
  }

  // ---- What the parser accepts ------------------------------------------------------------------

  /** Line by line, the text says that these names have these digests. */
  ghost predicate Says(lines: seq<string>, names: seq<string>, digests: seq<string>) {
    && |lines| == |names| == |digests|
    && (forall i :: 0 <= i < |lines| ==> ParseLine(lines[i]) == Some((names[i], digests[i])))
  }

  predicate NoneRepeated(names: seq<string>) {
    forall i, j :: 0 <= i < j < |names| ==> names[i] != names[j]
  }

  /** The table that entries extend another one to, the last of a name winning. */
  function Added(parsed: map<string, string>, names: seq<string>, digests: seq<string>): map<string, string>
    requires |names| == |digests|
    decreases |names|
  {
    if names == [] then parsed else Added(parsed[names[0] := digests[0]], names[1..], digests[1..])
  }

  lemma {:induction false} ParsedLinesSay(lines: seq<string>, parsed: map<string, string>) returns (names: seq<string>, digests: seq<string>)
    requires ParseLines(lines, parsed).Some?
    ensures Says(lines, names, digests)
  {
    if lines == [] {
      names, digests := [], [];
    } else {
      var entry := ParseLine(lines[0]).value;
      names, digests := ParsedLinesSay(lines[1..], parsed[entry.0 := entry.1]);
      names, digests := [entry.0] + names, [entry.1] + digests;
    }
  }

  lemma {:induction false} SaidLinesParse(lines: seq<string>, names: seq<string>, digests: seq<string>, parsed: map<string, string>)
    requires Says(lines, names, digests)
    ensures ParseLines(lines, parsed) ==
            if NoneRepeated(names) && (forall i :: 0 <= i < |names| ==> names[i] !in parsed) then Some(Added(parsed, names, digests)) else None
    decreases |lines|
  {
    if lines != [] {
      var next := parsed[names[0] := digests[0]];
      SaidLinesParse(lines[1..], names[1..], digests[1..], next);
    }
  }

  lemma {:induction false} AddedHolds(parsed: map<string, string>, names: seq<string>, digests: seq<string>)
    requires |names| == |digests| && NoneRepeated(names)
    ensures var all := Added(parsed, names, digests);
            && all.Keys == parsed.Keys + (set n | n in names)
            && (forall i :: 0 <= i < |names| ==> all[names[i]] == digests[i])
            && (forall n :: n in parsed && n !in names ==> all[n] == parsed[n])
    decreases |names|
  {
    if names != [] {
      AddedHolds(parsed[names[0] := digests[0]], names[1..], digests[1..]);
      assert names == [names[0]] + names[1..];
    }
  }

  lemma {:induction false} DistinctCount(names: seq<string>)
    requires NoneRepeated(names)
    ensures |set n | n in names| == |names|
  {
    if names != [] {
      var k := |names| - 1;
      DistinctCount(names[..k]);
      assert names == names[..k] + [names[k]];
      assert (set n | n in names) == (set n | n in names[..k]) + {names[k]};
    }
  }

  /** Names drawn without repetition from a list without repetition use it up exactly when there are as many. */
  lemma DistinctCover(names: seq<string>, pool: seq<string>)
    requires NoneRepeated(names) && NoneRepeated(pool)
    requires forall i :: 0 <= i < |names| ==> names[i] in pool
    ensures (set n | n in names) == (set n | n in pool) <==> |names| == |pool|
  {
    var used, all := set n | n in names, set n | n in pool;
    DistinctCount(names);
    DistinctCount(pool);
    assert all == used + (all - used);
    assert |all| == |used| + |all - used|;
  }

  lemma AddedCovers(none: map<string, string>, names: seq<string>, digests: seq<string>, pool: seq<string>)
    requires none == map[] && |names| == |digests| && NoneRepeated(names) && NoneRepeated(pool)
    requires forall i :: 0 <= i < |names| ==> names[i] in pool
    ensures var all := Added(none, names, digests);
            && (all.Keys == (set n | n in pool) <==> |names| == |pool|)
            && (forall i :: 0 <= i < |names| ==> names[i] in all && all[names[i]] == digests[i])
  {
    AddedHolds(none, names, digests);
    DistinctCover(names, pool);
    assert Added(none, names, digests).Keys == set n | n in names;
  }

  /**
    A manifest whose lines are well formed is accepted exactly when there are five of them and no
    name occurs twice; every name then has the digest on its line.
  */
  lemma ParseExactly(text: string, names: seq<string>, digests: seq<string>)
    requires Says(SplitLines(UniversalNewlines(text)), names, digests)
    ensures Parse(text).Some? <==> |names| == |NAMES| && NoneRepeated(names)
    ensures Parse(text).Some? ==> forall i :: 0 <= i < |names| ==> names[i] in Parse(text).value && Parse(text).value[names[i]] == digests[i]
  {
    var lines := SplitLines(UniversalNewlines(text));
    SaidLinesParse(lines, names, digests, map[]);
    if NoneRepeated(names) {
      AddedCovers(map[], names, digests, NAMES);
    }
  }

  /** No other manifest is accepted. */
  lemma AcceptedManifestIsWellFormed(text: string)
    ensures Parse(text).Some? ==> exists names, digests :: Says(SplitLines(UniversalNewlines(text)), names, digests)
  {
    if Parse(text).Some? {
      var names, digests := ParsedLinesSay(SplitLines(UniversalNewlines(text)), map[]);
    }
  }
}
