/** The glob matcher of utils/glob.go and the declarative meaning of `*`. */
module Glob {

  const GLOB := '*'

  // ---------- The meaning of a pattern ----------

  function Stars(pattern: string): nat {
    if pattern == "" then 0 else (if pattern[0] == GLOB then 1 else 0) + Stars(pattern[1..])
  }

  /** The pattern with its stars replaced, in order, by `fills`. */
  function Substitute(pattern: string, fills: seq<string>): string
    requires |fills| == Stars(pattern)
  {
    if pattern == "" then ""
    else if pattern[0] == GLOB then fills[0] + Substitute(pattern[1..], fills[1..])
    else [pattern[0]] + Substitute(pattern[1..], fills)
  }

  ghost predicate Matches(pattern: string, subject: string) {
    exists fills: seq<string> :: |fills| == Stars(pattern) && Substitute(pattern, fills) == subject
  }

  // ---------- strings.Split, strings.Index, strings.HasPrefix, strings.HasSuffix ----------

  function Split(s: string): (parts: seq<string>)
    ensures |parts| == Stars(s) + 1
  {
    if s == "" then [""]
    else
      var rest := Split(s[1..]);
      if s[0] == GLOB then [""] + rest else [[s[0]] + rest[0]] + rest[1..]
  }

  predicate OccursAt(s: string, sub: string, k: int) {
    0 <= k <= |s| - |sub| && s[k..k + |sub|] == sub
  }

  function IndexFrom(s: string, sub: string, k: nat): (idx: int)
    requires k <= |s|
    ensures idx == -1 || (k <= idx && OccursAt(s, sub, idx))
    ensures forall j :: k <= j && (idx == -1 || j < idx) ==> !OccursAt(s, sub, j)
    decreases |s| - k
  {
    if OccursAt(s, sub, k) then k else if k == |s| then -1 else IndexFrom(s, sub, k + 1)
  }

  /** Leftmost occurrence of `sub`, or -1. */
  function Index(s: string, sub: string): (idx: int)
    ensures idx == -1 || (0 <= idx && OccursAt(s, sub, idx))
    ensures forall j :: 0 <= j && (idx == -1 || j < idx) ==> !OccursAt(s, sub, j)
  {
    IndexFrom(s, sub, 0)
  }

  predicate HasSuffix(s: string, suffix: string) {
    OccursAt(s, suffix, |s| - |suffix|)
  }

  // ---------- Patterns as lists of literal parts ----------

  /** fills[0] parts[0] fills[1] parts[1] ... */
  function Weave(parts: seq<string>, fills: seq<string>): string
    requires |parts| == |fills|
  {
    if fills == [] then "" else fills[0] + parts[0] + Weave(parts[1..], fills[1..])
  }

  /** Splitting at the stars and weaving the fills back in is substitution. */
  lemma {:induction false} SplitWeaves(pattern: string, fills: seq<string>)
    requires |fills| == Stars(pattern)
    ensures Split(pattern)[0] + Weave(Split(pattern)[1..], fills) == Substitute(pattern, fills)
  {
    if pattern != "" {
      var rest := Split(pattern[1..]);
      if pattern[0] == GLOB {
        SplitWeaves(pattern[1..], fills[1..]);
        assert Split(pattern)[1..] == rest;
        assert fills[0] + rest[0] + Weave(rest[1..], fills[1..]) == fills[0] + (rest[0] + Weave(rest[1..], fills[1..]));
      } else {
        SplitWeaves(pattern[1..], fills);
        assert Split(pattern)[1..] == rest[1..];
        assert [pattern[0]] + rest[0] + Weave(rest[1..], fills) == [pattern[0]] + (rest[0] + Weave(rest[1..], fills));
      }
    }
  }

  /** The parts occur in `s` in order without overlap, the last one ending it; a star precedes each. */
  ghost predicate Floats(parts: seq<string>, s: string) {
    if parts == [] then s == ""
    else exists k :: OccursAt(s, parts[0], k) && Floats(parts[1..], s[k + |parts[0]|..])
  }

  /** A leading star absorbs any further text in front. */
  lemma FloatsAbsorbs(parts: seq<string>, s: string, x: string)
    requires parts != [] && Floats(parts, s)
    ensures Floats(parts, x + s)
  {
    var k :| OccursAt(s, parts[0], k) && Floats(parts[1..], s[k + |parts[0]|..]);
    var j := |x| + k;
    assert (x + s)[j..j + |parts[0]|] == s[k..k + |parts[0]|];
    assert (x + s)[j + |parts[0]|..] == s[k + |parts[0]|..];
    assert OccursAt(x + s, parts[0], j);
  }

  /** Exchange argument: if any occurrence of a part works, the leftmost one does. */
  lemma LeftmostIsEnough(parts: seq<string>, s: string)
    requires |parts| > 1
    ensures var idx := Index(s, parts[0]);
            Floats(parts, s) <==> idx >= 0 && Floats(parts[1..], s[idx + |parts[0]|..])
  {
    var idx := Index(s, parts[0]);
    if Floats(parts, s) {
      var k :| OccursAt(s, parts[0], k) && Floats(parts[1..], s[k + |parts[0]|..]);
      var skipped := s[idx + |parts[0]|..k + |parts[0]|];
      FloatsAbsorbs(parts[1..], s[k + |parts[0]|..], skipped);
      assert skipped + s[k + |parts[0]|..] == s[idx + |parts[0]|..];
    }
  }

  lemma LastPartIsSuffix(last: string, s: string)
    ensures Floats([last], s) <==> HasSuffix(s, last)
  {
    assert [last][1..] == [];
    if Floats([last], s) {
      var k :| OccursAt(s, last, k) && Floats([], s[k + |last|..]);
    }
    if HasSuffix(s, last) {
      assert Floats([], s[|s| - |last| + |last|..]);
      assert OccursAt(s, [last][0], |s| - |last|);
    }
  }

  lemma {:induction false} FloatsToFills(parts: seq<string>, s: string) returns (fills: seq<string>)
    requires Floats(parts, s)
    ensures |fills| == |parts| && Weave(parts, fills) == s
  {
    if parts == [] {
      fills := [];
    } else {
      var k :| OccursAt(s, parts[0], k) && Floats(parts[1..], s[k + |parts[0]|..]);
      var rest := FloatsToFills(parts[1..], s[k + |parts[0]|..]);
      fills := [s[..k]] + rest;
      assert fills[1..] == rest;
      assert s == s[..k] + s[k..k + |parts[0]|] + s[k + |parts[0]|..];
    }
  }

  lemma {:induction false} FillsToFloats(parts: seq<string>, fills: seq<string>)
    requires |parts| == |fills|
    ensures Floats(parts, Weave(parts, fills))
  {
    if parts != [] {
      FillsToFloats(parts[1..], fills[1..]);
      var s, k := Weave(parts, fills), |fills[0]|;
      assert s[k + |parts[0]|..] == Weave(parts[1..], fills[1..]);
      assert OccursAt(s, parts[0], k);
    }
  }

  /** A pattern with a star matches exactly the subjects that start with its first part and float the others. */
  lemma MatchesParts(pattern: string, subject: string)
    requires Stars(pattern) > 0
    ensures var parts := Split(pattern);
            Matches(pattern, subject) <==>
            OccursAt(subject, parts[0], 0) && Floats(parts[1..], subject[|parts[0]|..])
  {
    var parts := Split(pattern);
    var head, rest := parts[0], parts[1..];
    if Matches(pattern, subject) {
      var fills :| |fills| == Stars(pattern) && Substitute(pattern, fills) == subject;
      SplitWeaves(pattern, fills);
      FillsToFloats(rest, fills);
      assert subject[|head|..] == Weave(rest, fills);
    }
    if OccursAt(subject, head, 0) && Floats(rest, subject[|head|..]) {
      var fills := FloatsToFills(rest, subject[|head|..]);
      SplitWeaves(pattern, fills);
      assert subject == head + subject[|head|..];
    }
  }

  lemma {:induction false} SubstituteLiteral(pattern: string)
    requires Stars(pattern) == 0
    ensures Substitute(pattern, []) == pattern
  {
    if pattern != "" { SubstituteLiteral(pattern[1..]); }
  }

  lemma NoStarIsLiteral(pattern: string, subject: string)
    requires Stars(pattern) == 0
    ensures Matches(pattern, subject) <==> subject == pattern
  {
    SubstituteLiteral(pattern);
  }

  lemma {:induction false} EdgeParts(pattern: string)
    requires pattern != ""
    ensures pattern[0] == GLOB ==> Split(pattern)[0] == ""
    ensures pattern[|pattern| - 1] == GLOB ==> Split(pattern)[Stars(pattern)] == ""
  {
    if |pattern| > 1 { EdgeParts(pattern[1..]); }
  }

  lemma StarMatchesAll(subject: string)
    ensures Matches("*", subject)
  {
    assert Substitute("*", [subject]) == subject;
  }

  /** The first test of the loop: a pattern that does not start with a star pins its first part to the start. */
  lemma FirstPart(pattern: string, subject: string)
    requires Stars(pattern) > 0
    ensures var parts := Split(pattern); var idx := Index(subject, parts[0]);
            if pattern[0] != GLOB && idx != 0 then !Matches(pattern, subject)
            else idx == 0 && (Matches(pattern, subject) <==> Floats(parts[1..], subject[|parts[0]|..]))
  {
    MatchesParts(pattern, subject);
    EdgeParts(pattern);
    assert OccursAt(subject, "", 0);
  }

  /** The test after the loop. */
  lemma LastPart(pattern: string, subj: string)
    requires pattern != ""
    ensures var parts := Split(pattern); var end := |parts| - 1;
            Floats(parts[end..], subj) <==> pattern[|pattern| - 1] == GLOB || HasSuffix(subj, parts[end])
  {
    var parts := Split(pattern);
    EdgeParts(pattern);
    LastPartIsSuffix(parts[|parts| - 1], subj);
    assert parts[|parts| - 1..] == [parts[|parts| - 1]];
  }

  // ---------- The matcher ----------

  /** utils.Glob: greedy leftmost search for each part, then a suffix test. */
  method Match(pattern: string, subject: string) returns (matched: bool)
    ensures matched <==> Matches(pattern, subject)
  {
    hide Matches, Floats;
    if pattern == "" {
      NoStarIsLiteral(pattern, subject);
      return subject == pattern;
    }
    if pattern == [GLOB] {
      StarMatchesAll(subject);
      return true;
    }
    var parts := Split(pattern);
    if |parts| == 1 {
      NoStarIsLiteral(pattern, subject);
      return subject == pattern;
    }
    var leadingGlob := pattern[0] == GLOB;
    var trailingGlob := pattern[|pattern| - 1] == GLOB;
    var end := |parts| - 1;
    var subj := subject;
    for i := 0 to end
      invariant i == 0 ==> subj == subject
      invariant i > 0 ==> (Matches(pattern, subject) <==> Floats(parts[i..], subj))
    {
      var idx := Index(subj, parts[i]);
      if i == 0 {
        FirstPart(pattern, subject);
        if !leadingGlob && idx != 0 { return false; }
      } else {
        LeftmostIsEnough(parts[i..], subj);
        assert parts[i..][1..] == parts[i + 1..];
        if idx < 0 { return false; }
      }
      subj := subj[idx + |parts[i]|..];
    }
    LastPart(pattern, subj);
    return trailingGlob || HasSuffix(subj, parts[end]);
  }
}
