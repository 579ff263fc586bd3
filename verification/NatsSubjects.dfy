/** Publish-permission coverage of tools/validate_nats_user_credentials.py. */
module NatsSubjects {
  import opened Prelude
  import opened Text

  const ANY := "*"
  const REST := ">"

  // ---- Meaning of subjects ----------------------------------------------------------------------

  /** The meaning of a pattern: `*` is any one token, a final `>` is one or more tokens. */
  predicate Matches(pattern: seq<string>, tokens: seq<string>) {
    if pattern == [] then tokens == []
    else if pattern[0] == REST then |pattern| == 1 && tokens != []
    else tokens != [] && (pattern[0] == ANY || pattern[0] == tokens[0]) && Matches(pattern[1..], tokens[1..])
  }

  predicate IsLiteral(tokens: seq<string>) {
    forall i :: 0 <= i < |tokens| ==> tokens[i] != ANY && tokens[i] != REST
  }

  /** Every concrete subject the first pattern matches is matched by the second. */
  ghost predicate Included(inner: seq<string>, outer: seq<string>) {
    forall tokens :: IsLiteral(tokens) && Matches(inner, tokens) ==> Matches(outer, tokens)
  }

  // ---- The check --------------------------------------------------------------------------------

  /** `_permission_covers`: an indexed loop with early returns, which decides the recursive meaning. */
  method PermissionCovers(pattern: string, subject: string) returns (covers: bool)
    ensures covers <==> Matches(Split(pattern, '.'), Split(subject, '.'))
  {
    var patternTokens := Split(pattern, '.');
    var subjectTokens := Split(subject, '.');
    for index := 0 to |patternTokens|
      invariant index <= |subjectTokens|
      invariant Matches(patternTokens, subjectTokens) <==> Matches(patternTokens[index..], subjectTokens[index..])
    {
      var token := patternTokens[index];
      assert patternTokens[index..][1..] == patternTokens[index + 1..];
      if token == REST {
        return index == |patternTokens| - 1 && index < |subjectTokens|;
      }
      if index >= |subjectTokens| || (token != ANY && token != subjectTokens[index]) {
        return false;
      }
      assert subjectTokens[index..][1..] == subjectTokens[index + 1..];
    }
    return |patternTokens| == |subjectTokens|;
  }

  predicate Covered(allow: seq<string>, subject: string) {
    exists i :: 0 <= i < |allow| && Matches(Split(allow[i], '.'), Split(subject, '.'))
  }

  /** `validate` over decoded claims: refused exactly when some required subject is not covered. */
  method Validate(allow: seq<string>, required: seq<string>) returns (r: Option<(nat, nat)>)
    ensures r.Some? <==> forall j :: 0 <= j < |required| ==> Covered(allow, required[j])
    ensures r.Some? ==> r.value == (|allow|, |required|)
  {
    var missing := [];
    for j := 0 to |required|
      invariant missing == [] <==> forall k :: 0 <= k < j ==> Covered(allow, required[k])
    {
      var found := false;
      for i := 0 to |allow|
        invariant found <==> exists k :: 0 <= k < i && Matches(Split(allow[k], '.'), Split(required[j], '.'))
      {
        var covers := PermissionCovers(allow[i], required[j]);
        found := found || covers;
      }
      if !found {
        missing := missing + [required[j]];
      }
    }
    return if missing == [] then Some((|allow|, |required|)) else None;
  }

  // ---- What coverage means for a required pattern -----------------------------------------------

  /** A required subject that ends in `>` and has no earlier one. */
  predicate OpenEnded(subject: seq<string>) {
    subject != [] && subject[|subject| - 1] == REST && REST !in subject[..|subject| - 1]
  }

  predicate EndsOpen(pattern: seq<string>) {
    pattern != [] && pattern[|pattern| - 1] == REST
  }

  /** Coverage carries over to every concrete subject, unless `*` was matched with a final `>`. */
  lemma {:induction false} CoverageIncludes(pattern: seq<string>, subject: seq<string>, tokens: seq<string>)
    requires Matches(pattern, subject) && Matches(subject, tokens)
    requires REST !in subject || EndsOpen(pattern)
    ensures Matches(pattern, tokens)
    decreases |pattern|
  {
    if pattern != [] && pattern[0] != REST && subject[0] != REST {
      assert EndsOpen(pattern) ==> |pattern| > 1 && pattern[1..][|pattern| - 2] == REST;
      CoverageIncludes(pattern[1..], subject[1..], tokens[1..]);
    }
  }

  lemma {:induction false} ClosedPatternFixesLength(pattern: seq<string>, tokens: seq<string>)
    requires Matches(pattern, tokens) && !EndsOpen(pattern)
    ensures |tokens| == |pattern|
    decreases |pattern|
  {
    if pattern != [] {
      assert |pattern| > 1 ==> pattern[1..][|pattern| - 2] == pattern[|pattern| - 1];
      ClosedPatternFixesLength(pattern[1..], tokens[1..]);
    }
  }

  lemma {:induction false} MisplacedRestMatchesNothing(subject: seq<string>, tokens: seq<string>)
    requires REST in subject && !OpenEnded(subject)
    ensures !Matches(subject, tokens)
    decreases |subject|
  {
    if subject[0] != REST && tokens != [] {
      var rest := subject[1..];
      assert subject[..|subject| - 1] == [subject[0]] + rest[..|rest| - 1];
      MisplacedRestMatchesNothing(rest, tokens[1..]);
    }
  }

  // A concrete subject for a pattern: a token that occurs nowhere else stands for each `*`.

  function Fresh(pattern: seq<string>): (token: string)
    ensures |token| >= 2 && forall i :: 0 <= i < |pattern| ==> |pattern[i]| < |token|
  {
    if pattern == [] then "xx" else
      var rest := Fresh(pattern[1..]);
      var token := if |pattern[0]| < |rest| then rest else pattern[0] + "x";
      assert forall i :: 0 < i < |pattern| ==> pattern[i] == pattern[1..][i - 1];
      token
  }

  function Ground(subject: seq<string>, token: string): seq<string> {
    seq(|subject|, i requires 0 <= i < |subject| => if subject[i] == ANY then token else subject[i])
  }

  lemma GroundTail(subject: seq<string>, token: string)
    requires subject != []
    ensures Ground(subject, token)[1..] == Ground(subject[1..], token)
  {
  }

  lemma {:induction false} SubjectMatchesGround(subject: seq<string>, token: string, more: seq<string>)
    requires REST !in subject
    ensures Matches(subject, Ground(subject, token))
    ensures more != [] ==> Matches(subject + [REST], Ground(subject, token) + more)
    decreases |subject|
  {
    if subject == [] {
      assert Ground(subject, token) + more == more && subject + [REST] == [REST];
    } else {
      GroundTail(subject, token);
      SubjectMatchesGround(subject[1..], token, more);
      assert (Ground(subject, token) + more)[1..] == Ground(subject[1..], token) + more;
      assert (subject + [REST])[1..] == subject[1..] + [REST];
    }
  }

  lemma {:induction false} GroundCoverageIsCoverage(pattern: seq<string>, subject: seq<string>, token: string)
    requires REST !in subject && Matches(pattern, Ground(subject, token))
    requires forall i :: 0 <= i < |pattern| ==> pattern[i] != token
    ensures Matches(pattern, subject)
    decreases |pattern|
  {
    if pattern != [] && pattern[0] != REST {
      GroundTail(subject, token);
      GroundCoverageIsCoverage(pattern[1..], subject[1..], token);
    }
  }

  /** For a required subject without `>`, coverage is exactly inclusion of the matched subjects. */
  lemma CoverageIsInclusion(pattern: seq<string>, subject: seq<string>)
    requires REST !in subject
    ensures Matches(pattern, subject) <==> Included(subject, pattern)
  {
    if Matches(pattern, subject) {
      forall tokens | IsLiteral(tokens) && Matches(subject, tokens) ensures Matches(pattern, tokens) {
        CoverageIncludes(pattern, subject, tokens);
      }
    }
    if Included(subject, pattern) {
      var token := Fresh(pattern);
      SubjectMatchesGround(subject, token, []);
      assert IsLiteral(Ground(subject, token));
      GroundCoverageIsCoverage(pattern, subject, token);
    }
  }

  /**
    The exact condition in general: coverage of a required pattern guarantees inclusion if and only
    if the pattern does not end in `>` with no earlier `>`, or the permission ends in `>`.
  */
  lemma WhenCoverageIncludes(pattern: seq<string>, subject: seq<string>)
    requires Matches(pattern, subject)
    ensures Included(subject, pattern) <==> (!OpenEnded(subject) || EndsOpen(pattern))
  {
    if REST !in subject {
      CoverageIsInclusion(pattern, subject);
    } else if !OpenEnded(subject) {
      forall tokens ensures !Matches(subject, tokens) {
        MisplacedRestMatchesNothing(subject, tokens);
      }
    } else if EndsOpen(pattern) {
      forall tokens | IsLiteral(tokens) && Matches(subject, tokens) ensures Matches(pattern, tokens) {
        CoverageIncludes(pattern, subject, tokens);
      }
    } else {
      var stem, more := subject[..|subject| - 1], ["xx", "xx"];
      assert stem + [REST] == subject;
      SubjectMatchesGround(stem, "xx", more);
      var tokens := Ground(stem, "xx") + more;
      assert IsLiteral(tokens) && Matches(subject, tokens);
      ClosedPatternFixesLength(pattern, subject);
      if Matches(pattern, tokens) {
        ClosedPatternFixesLength(pattern, tokens);
      }
    }
  }

  /** The permission `a.*` covers the required `a.>` and yet does not include it. */
  lemma StarCoversRest()
    ensures Matches(["a", ANY], ["a", REST]) && !Included(["a", REST], ["a", ANY])
  {
    var pattern, subject := ["a", ANY], ["a", REST];
    assert pattern[1..] == [ANY] && subject[1..] == [REST] && [ANY][1..] == [];
    assert Matches(pattern, subject);
    assert subject[..1] == ["a"];
    WhenCoverageIncludes(pattern, subject);
  }
}
