/** Wildcard matching of path names (pathMatch in path.c). */
module PathMatch {

  // tolower in the default locale
  function Lower(c: char): char {
    if 'A' <= c <= 'Z' then (c as int - 'A' as int + 'a' as int) as char else c
  }

  // ---------------------------------------------------------------- what a match is

  // The piece of the path that one character of the pattern stands for: one character for '?',
  // any run for '*', and otherwise the same character, ignoring case.
  predicate Stands(p: char, piece: string) {
    if p == '?' then |piece| == 1
    else if p == '*' then true
    else |piece| == 1 && Lower(piece[0]) == Lower(p)
  }

  // cuts[i]..cuts[i + 1] is the piece of the path for character i of the pattern.
  ghost predicate Cut(path: string, pattern: string, cuts: seq<nat>) {
    && |cuts| == |pattern| + 1
    && cuts[0] == 0 && cuts[|pattern|] == |path|
    && (forall i | 0 <= i < |pattern| :: PieceAt(path, pattern, cuts, i))
  }

  ghost predicate PieceAt(path: string, pattern: string, cuts: seq<nat>, i: nat)
    requires i < |pattern| && |cuts| == |pattern| + 1
  {
    cuts[i] <= cuts[i + 1] <= |path| && Stands(pattern[i], path[cuts[i]..cuts[i + 1]])
  }

  // The whole path can be cut into pieces that the characters of the pattern stand for.
  ghost predicate Matches(path: string, pattern: string) {
    exists cuts: seq<nat> :: Cut(path, pattern, cuts)
  }

  // ---------------------------------------------------------------- one character at a time

  lemma MatchesEmpty(path: string)
    ensures Matches(path, "") <==> path == ""
  {
    if path == "" {
      assert Cut(path, "", [0]);
    }
  }

  // The first piece has k characters.
  ghost predicate First(path: string, pattern: string, k: nat)
    requires pattern != ""
  {
    k <= |path| && Stands(pattern[0], path[..k]) && Matches(path[k..], pattern[1..])
  }

  lemma CutFirst(path: string, pattern: string, cuts: seq<nat>)
    requires pattern != "" && Cut(path, pattern, cuts)
    ensures First(path, pattern, cuts[1])
  {
    var k := cuts[1];
    assert PieceAt(path, pattern, cuts, 0);
    assert path[cuts[0]..k] == path[..k];
    CutsAbove(path, pattern, cuts, 1);
    var rest := seq(|pattern|, i requires 0 <= i < |pattern| => if cuts[i + 1] >= k then cuts[i + 1] - k else 0);
    forall i | 0 <= i < |pattern| - 1 ensures PieceAt(path[k..], pattern[1..], rest, i) {
      assert PieceAt(path, pattern, cuts, i + 1);
      assert path[k..][rest[i]..rest[i + 1]] == path[cuts[i + 1]..cuts[i + 2]];
    }
    assert Cut(path[k..], pattern[1..], rest);
  }

  // From cut number i on the cuts do not go back.
  lemma {:induction false} CutsAbove(path: string, pattern: string, cuts: seq<nat>, i: nat)
    requires Cut(path, pattern, cuts) && i <= |pattern|
    ensures forall j | i <= j <= |pattern| :: cuts[i] <= cuts[j]
    decreases |pattern| - i
  {
    if i < |pattern| {
      assert PieceAt(path, pattern, cuts, i);
      CutsAbove(path, pattern, cuts, i + 1);
    }
  }

  lemma FirstCut(path: string, pattern: string, k: nat)
    requires pattern != "" && First(path, pattern, k)
    ensures Matches(path, pattern)
  {
    var rest: seq<nat> :| Cut(path[k..], pattern[1..], rest);
    var cuts: seq<nat> := [0] + seq(|pattern|, i requires 0 <= i < |pattern| => rest[i] + k);
    forall i | 0 <= i < |pattern| ensures PieceAt(path, pattern, cuts, i) {
      if i == 0 {
        assert path[cuts[0]..cuts[1]] == path[..k];
      } else {
        assert PieceAt(path[k..], pattern[1..], rest, i - 1);
        assert path[cuts[i]..cuts[i + 1]] == path[k..][rest[i - 1]..rest[i]];
      }
    }
    assert Cut(path, pattern, cuts);
  }

  // A character that stands for exactly one takes the first of the path.
  lemma MatchesOne(path: string, pattern: string)
    requires pattern != "" && pattern[0] != '*'
    ensures Matches(path, pattern) <==>
      path != "" && Stands(pattern[0], path[..1]) && Matches(path[1..], pattern[1..])
  {
    if Matches(path, pattern) {
      var cuts: seq<nat> :| Cut(path, pattern, cuts);
      CutFirst(path, pattern, cuts);
    }
    if path != "" && Stands(pattern[0], path[..1]) && Matches(path[1..], pattern[1..]) {
      FirstCut(path, pattern, 1);
    }
  }

  // An asterisk either stands for nothing, or takes the first character of the path and goes on.
  lemma MatchesStar(path: string, pattern: string)
    requires pattern != "" && pattern[0] == '*'
    ensures Matches(path, pattern) <==>
      Matches(path, pattern[1..]) || (path != "" && Matches(path[1..], pattern))
  {
    assert path[0..] == path;
    if Matches(path, pattern) {
      var cuts: seq<nat> :| Cut(path, pattern, cuts);
      CutFirst(path, pattern, cuts);
      var k := cuts[1];
      if k > 0 {
        assert path[1..][k - 1..] == path[k..];
        assert First(path[1..], pattern, k - 1);
        FirstCut(path[1..], pattern, k - 1);
      }
    }
    if Matches(path, pattern[1..]) {
      assert First(path, pattern, 0);
      FirstCut(path, pattern, 0);
    }
    if path != "" && Matches(path[1..], pattern) {
      var cuts: seq<nat> :| Cut(path[1..], pattern, cuts);
      CutFirst(path[1..], pattern, cuts);
      var k := cuts[1];
      assert path[1..][k..] == path[k + 1..];
      assert First(path, pattern, k + 1);
      FirstCut(path, pattern, k + 1);
    }
  }

  // ---------------------------------------------------------------- the algorithm

  // Both strings without their terminating zero. The loop moves through both, and recursion is
  // needed at an asterisk only.
  method PathMatch(path: string, pattern: string) returns (r: bool)
    ensures r <==> Matches(path, pattern)
    decreases |pattern|
  {
    hide Matches, Stands, Lower;
    var i, j := 0, 0;
    assert path[0..] == path && pattern[0..] == pattern;
    while j < |pattern|
      invariant 0 <= i <= |path| && 0 <= j <= |pattern|
      invariant Matches(path, pattern) <==> Matches(path[i..], pattern[j..])
      decreases |path| - i + |pattern| - j
    {
      ghost var s, p := path[i..], pattern[j..];
      assert p[1..] == pattern[j + 1..] && (s != "" ==> s[1..] == path[i + 1..]);
      if pattern[j] == '?' {
        MatchesOne(s, p);
        if i == |path| { return false; }
        QuestionMark(s);
        i, j := i + 1, j + 1;
      } else if pattern[j] == '*' {
        MatchesStar(s, p);
        if i == |path| {
          j := j + 1;
        } else {
          var found := PathMatch(path[i..], pattern[j + 1..]);
          if found { return true; }
          i := i + 1;
        }
      } else {
        MatchesOne(s, p);
        if i == |path| { return false; }
        Literal(s, pattern[j]);
        if Lower(path[i]) != Lower(pattern[j]) { return false; }
        i, j := i + 1, j + 1;
      }
    }
    assert pattern[j..] == "";
    MatchesEmpty(path[i..]);
    r := i == |path|;
  }

  lemma QuestionMark(s: string)
    requires s != ""
    ensures Stands('?', s[..1])
  {
  }

  lemma Literal(s: string, p: char)
    requires s != "" && p != '?' && p != '*'
    ensures Stands(p, s[..1]) <==> Lower(s[0]) == Lower(p)
  {
  }

  // ---------------------------------------------------------------- consequences

  // Case does not matter.
  lemma {:induction false} CaseIgnored(path: string, other: string, pattern: string)
    requires |path| == |other| && forall i | 0 <= i < |path| :: Lower(path[i]) == Lower(other[i])
    requires Matches(path, pattern)
    ensures Matches(other, pattern)
  {
    var cuts: seq<nat> :| Cut(path, pattern, cuts);
    forall i | 0 <= i < |pattern| ensures PieceAt(other, pattern, cuts, i) {
      assert PieceAt(path, pattern, cuts, i);
    }
    assert Cut(other, pattern, cuts);
  }

  // An asterisk alone matches every path, and doubling an asterisk changes nothing.
  lemma StarMatchesAll(path: string)
    ensures Matches(path, "*")
  {
    assert Cut(path, "*", [0, |path|]);
  }

  lemma {:induction false} StarTwice(path: string, pattern: string)
    requires pattern != "" && pattern[0] == '*'
    ensures Matches(path, "*" + pattern) <==> Matches(path, pattern)
    decreases |path|
  {
    hide Matches;
    var twice := "*" + pattern;
    assert twice[1..] == pattern;
    MatchesStar(path, twice);
    MatchesStar(path, pattern);
    if path != "" {
      StarTwice(path[1..], pattern);
    }
  }
}
