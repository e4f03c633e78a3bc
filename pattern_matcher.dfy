/**
 * UrlPatternMatcher: route templates such as "/users/{id}" against request
 * paths. Both are cut into segments with Java's `split("/")`; a template
 * segment is a wildcard for `matches` when it starts with '{' OR ends with '}',
 * and a variable for `extractVariables` only when it does both.
 */
module PatternMatcher {
  import opened JavaText

  /** The test `matches` applies to a template segment (either brace is enough). */
  predicate IsWildcard(seg: string) {
    StartsWith(seg, "{") || EndsWith(seg, "}")
  }

  /** The test `extractVariables` applies to a template segment (both braces needed). */
  predicate IsVariable(seg: string) {
    StartsWith(seg, "{") && EndsWith(seg, "}")
  }

  /** The two brace tests in terms of the first and last character. */
  lemma BraceChars(seg: string)
    ensures StartsWith(seg, "{") <==> |seg| > 0 && seg[0] == '{'
    ensures EndsWith(seg, "}") <==> |seg| > 0 && seg[|seg| - 1] == '}'
  {
    if |seg| > 0 {
      assert seg[..1] == [seg[0]];
      assert seg[|seg| - 1..] == [seg[|seg| - 1]];
    }
  }

  /** A variable segment has both braces, so it is at least two characters long. */
  lemma VariableLength(seg: string)
    requires IsVariable(seg)
    ensures |seg| >= 2 && seg[0] == '{' && seg[|seg| - 1] == '}'
  {
    BraceChars(seg);
  }

  /** The text between the braces of a variable segment. */
  function VariableName(seg: string): (name: string)
    requires IsVariable(seg)
    ensures seg == "{" + name + "}"
  {
    VariableLength(seg);
    assert seg == [seg[0]] + seg[1..|seg| - 1] + [seg[|seg| - 1]];
    seg[1..|seg| - 1]
  }

  function Segments(s: string): seq<string> {
    Split(s, '/')
  }

  /** Equal segment counts, and every non-wildcard segment equals its counterpart. */
  predicate SegmentsMatch(pat: seq<string>, act: seq<string>) {
    |pat| == |act| && forall i :: 0 <= i < |pat| ==> IsWildcard(pat[i]) || pat[i] == act[i]
  }

  /** What `matches(pattern, path)` computes. */
  predicate PatternMatches(pattern: string, path: string) {
    SegmentsMatch(Segments(pattern), Segments(path))
  }

  /** The bindings made by the first n segments, each later put overwriting an earlier one. */
  function Bindings(pat: seq<string>, act: seq<string>, n: nat): map<string, string>
    requires n <= |pat| == |act|
  {
    if n == 0 then map[]
    else
      var m := Bindings(pat, act, n - 1);
      if IsVariable(pat[n - 1]) then m[VariableName(pat[n - 1]) := act[n - 1]] else m
  }

  function SegmentVariables(pat: seq<string>, act: seq<string>): map<string, string> {
    if |pat| != |act| then map[] else Bindings(pat, act, |pat|)
  }

  /** What `extractVariables(pattern, path)` computes. */
  function Variables(pattern: string, path: string): map<string, string> {
    SegmentVariables(Segments(pattern), Segments(path))
  }

  /** `matches`: the segment-by-segment loop with its early exits. */
  method Matches(pattern: string, path: string) returns (b: bool)
    ensures b == PatternMatches(pattern, path)
    ensures |Segments(pattern)| != |Segments(path)| ==> !b
  {
    var pat := Split(pattern, '/');
    var act := Split(path, '/');
    if |pat| != |act| {
      return false;
    }
    for i := 0 to |pat|
      invariant forall j :: 0 <= j < i ==> IsWildcard(pat[j]) || pat[j] == act[j]
    {
      if !StartsWith(pat[i], "{") && !EndsWith(pat[i], "}") {
        if pat[i] != act[i] {
          return false;
        }
      }
    }
    return true;
  }

  /** `extractVariables`: the loop that fills a fresh map with `put`. */
  method ExtractVariables(pattern: string, path: string) returns (vars: map<string, string>)
    ensures vars == Variables(pattern, path)
    ensures |Segments(pattern)| != |Segments(path)| ==> vars == map[]
  {
    vars := map[];
    var pat := Split(pattern, '/');
    var act := Split(path, '/');
    if |pat| != |act| {
      return;
    }
    for i := 0 to |pat|
      invariant vars == Bindings(pat, act, i)
    {
      if StartsWith(pat[i], "{") && EndsWith(pat[i], "}") {
        VariableLength(pat[i]);
        var name := pat[i][1..|pat[i]| - 1];
        vars := vars[name := act[i]];
      }
    }
  }

  // ---------------------------------------------------------------------
  // Properties of the two specifications
  // ---------------------------------------------------------------------

  /** The keys bound by the first n segments are exactly the names of the variable segments among them. */
  lemma {:induction false} BindingsKeys(pat: seq<string>, act: seq<string>, n: nat, k: string)
    requires n <= |pat| == |act|
    ensures k in Bindings(pat, act, n) <==>
              exists i :: 0 <= i < n && IsVariable(pat[i]) && VariableName(pat[i]) == k
  {
    if n > 0 {
      BindingsKeys(pat, act, n - 1, k);
    }
  }

  /** A bound name holds the path segment of the LAST variable segment with that name. */
  lemma {:induction false} BindingsLastWins(pat: seq<string>, act: seq<string>, n: nat, i: nat)
    requires n <= |pat| == |act|
    requires i < n && IsVariable(pat[i])
    requires forall j :: i < j < n && IsVariable(pat[j]) ==> VariableName(pat[j]) != VariableName(pat[i])
    ensures VariableName(pat[i]) in Bindings(pat, act, n)
    ensures Bindings(pat, act, n)[VariableName(pat[i])] == act[i]
  {
    if i < n - 1 {
      BindingsLastWins(pat, act, n - 1, i);
    }
  }

  /**
   * With equal segment counts the variables are exactly the inner names of the
   * segments wrapped in braces; literal segments bind nothing.
   */
  lemma VariablesKeys(pattern: string, path: string, k: string)
    requires |Segments(pattern)| == |Segments(path)|
    ensures var pat := Segments(pattern);
            k in Variables(pattern, path) <==>
              exists i :: 0 <= i < |pat| && IsVariable(pat[i]) && VariableName(pat[i]) == k
  {
    BindingsKeys(Segments(pattern), Segments(path), |Segments(pattern)|, k);
  }

  /** Each variable maps to the path segment at the index of its last occurrence in the template. */
  lemma VariablesValue(pattern: string, path: string, i: nat)
    requires |Segments(pattern)| == |Segments(path)|
    requires i < |Segments(pattern)| && IsVariable(Segments(pattern)[i])
    requires var pat := Segments(pattern);
             forall j :: i < j < |pat| && IsVariable(pat[j]) ==> VariableName(pat[j]) != VariableName(pat[i])
    ensures VariableName(Segments(pattern)[i]) in Variables(pattern, path)
    ensures Variables(pattern, path)[VariableName(Segments(pattern)[i])] == Segments(path)[i]
  {
    BindingsLastWins(Segments(pattern), Segments(path), |Segments(pattern)|, i);
  }

  /** Different segment counts: no match and no bindings. */
  lemma CountMismatch(pattern: string, path: string)
    requires |Segments(pattern)| != |Segments(path)|
    ensures !PatternMatches(pattern, path) && Variables(pattern, path) == map[]
  {
  }

  /** `matches(p, p)` holds for every string. */
  lemma MatchesReflexive(p: string)
    ensures PatternMatches(p, p)
  {
  }

  lemma {:induction false} BindingsIgnoreLiterals(pat: seq<string>, act: seq<string>, act': seq<string>, n: nat)
    requires n <= |pat| == |act| == |act'|
    requires forall i :: 0 <= i < |pat| && IsVariable(pat[i]) ==> act[i] == act'[i]
    ensures Bindings(pat, act, n) == Bindings(pat, act', n)
  {
    if n > 0 {
      BindingsIgnoreLiterals(pat, act, act', n - 1);
    }
  }

  /**
   * `extractVariables` never looks at literal segments: two paths with the same
   * segment count that agree at the variable positions give the same bindings,
   * whether or not `matches` accepts them.
   */
  lemma VariablesIgnoreLiterals(pat: seq<string>, act: seq<string>, act': seq<string>)
    requires |pat| == |act| == |act'|
    requires forall i :: 0 <= i < |pat| && IsVariable(pat[i]) ==> act[i] == act'[i]
    ensures SegmentVariables(pat, act) == SegmentVariables(pat, act')
  {
    BindingsIgnoreLiterals(pat, act, act', |pat|);
  }

  /** A concrete case: the literal segment "a" differs from "b", yet "{id}" is bound. */
  lemma BindingsWithoutMatch()
    ensures !SegmentsMatch(["", "a", "{id}"], ["", "b", "7"])
    ensures SegmentVariables(["", "a", "{id}"], ["", "b", "7"]) == map["id" := "7"]
  {
    var pat, act := ["", "a", "{id}"], ["", "b", "7"];
    BraceChars(pat[0]); BraceChars(pat[1]); BraceChars(pat[2]);
    assert pat[1] != act[1] by { assert pat[1][0] != act[1][0]; }
    assert !(IsWildcard(pat[1]) || pat[1] == act[1]);
    assert VariableName(pat[2]) == "id";
    assert Bindings(pat, act, 1) == map[];
    assert Bindings(pat, act, 2) == map[];
    assert Bindings(pat, act, 3) == map["id" := "7"];
  }

  /**
   * The asymmetry of the two brace tests: "{id" (and "id}") is a wildcard for
   * `matches`, so it accepts any segment, even an empty one, but is not a
   * variable, so `extractVariables` binds nothing for it.
   */
  lemma HalfBracedSegment(act: string)
    ensures IsWildcard("{id") && !IsVariable("{id")
    ensures IsWildcard("id}") && !IsVariable("id}")
    ensures SegmentsMatch(["", "users", "{id"], ["", "users", act])
    ensures SegmentVariables(["", "users", "{id"], ["", "users", act]) == map[]
  {
    BraceChars("{id"); BraceChars("id}"); BraceChars(""); BraceChars("users");
    var pat, act' := ["", "users", "{id"], ["", "users", act];
    assert !IsVariable(pat[0]) && !IsVariable(pat[1]) && !IsVariable(pat[2]);
    assert Bindings(pat, act', 1) == map[];
    assert Bindings(pat, act', 2) == map[];
  }

  /** A repeated variable name is bound to the path segment of its later occurrence. */
  lemma RepeatedVariableLaterWins()
    ensures SegmentVariables(["{x}", "{x}"], ["1", "2"]) == map["x" := "2"]
  {
    BraceChars("{x}");
    assert VariableName("{x}") == "x";
    var pat, act := ["{x}", "{x}"], ["1", "2"];
    assert Bindings(pat, act, 1) == map["x" := "1"];
    assert Bindings(pat, act, 2) == map["x" := "1"]["x" := "2"];
  }

  /** Trailing slashes of a non-empty path change neither the match nor the bindings. */
  lemma TrailingSlashes(pattern: string, path: string, k: nat)
    requires path != ""
    ensures PatternMatches(pattern, path + Repeat('/', k)) == PatternMatches(pattern, path)
    ensures Variables(pattern, path + Repeat('/', k)) == Variables(pattern, path)
  {
    SplitTrailingSeparators(path, '/', k);
  }

  /**
   * A path of slashes only has no segments at all, while "" has the one empty
   * segment; so the template "/" matches "/" and "//" but not "".
   */
  lemma SlashesHaveNoSegments(k: nat)
    requires k > 0
    ensures Segments(Repeat('/', k)) == []
    ensures Segments("") == [""]
    ensures PatternMatches(Repeat('/', 1), Repeat('/', k)) && !PatternMatches(Repeat('/', 1), "")
    ensures Variables(Repeat('/', 1), Repeat('/', k)) == map[]
  {
    SplitOfSeparators('/', k);
    SplitOfSeparators('/', 1);
  }

  lemma RootPath()
    ensures Segments("/") == []
    ensures PatternMatches("/", "/") && !PatternMatches("/", "")
  {
    assert Repeat('/', 1) == "/";
    SlashesHaveNoSegments(1);
  }

  /** "/users" has the segments "" and "users". */
  lemma SegmentsOfUsers()
    ensures Segments("/users") == ["", "users"]
  {
    SplitJoin(["", "users"], '/');
    assert Join(["", "users"], '/') == "/users";
  }

  /** So a template "/users" accepts the path "/users/". */
  lemma UsersWithTrailingSlash()
    ensures PatternMatches("/users", "/users/")
  {
    TrailingSlashes("/users", "/users", 1);
    assert "/users" + Repeat('/', 1) == "/users/";
    MatchesReflexive("/users");
  }

  lemma UserIdSegments()
    ensures Segments("/users/{id}") == ["", "users", "{id}"]
    ensures Segments("/users/42") == ["", "users", "42"]
  {
    SplitJoin(["", "users", "{id}"], '/');
    assert Join(["", "users", "{id}"], '/') == "/users/{id}";
    SplitJoin(["", "users", "42"], '/');
    assert Join(["", "users", "42"], '/') == "/users/42";
  }

  lemma UserIdBindings()
    ensures SegmentsMatch(["", "users", "{id}"], ["", "users", "42"])
    ensures SegmentVariables(["", "users", "{id}"], ["", "users", "42"]) == map["id" := "42"]
  {
    BraceChars(""); BraceChars("users"); BraceChars("{id}");
    assert VariableName("{id}") == "id";
    var pat, act := ["", "users", "{id}"], ["", "users", "42"];
    assert !IsVariable(pat[0]) && !IsVariable(pat[1]) && IsVariable(pat[2]);
    assert Bindings(pat, act, 1) == map[];
    assert Bindings(pat, act, 2) == map[];
  }

  /** The example of a route with one variable: "/users/{id}" against "/users/42". */
  lemma UserIdExample()
    ensures PatternMatches("/users/{id}", "/users/42")
    ensures Variables("/users/{id}", "/users/42") == map["id" := "42"]
  {
    UserIdSegments();
    UserIdBindings();
  }
}
