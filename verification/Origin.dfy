/**
 * The origin allowlist: a `*` in a pattern stands for one non-empty run of `[a-z0-9-]`.
 */
module Origin {
  import opened Text

  predicate RunChar(c: char) {
    IsLower(c) || IsDigit(c) || c == '-'
  }

  predicate IsRun(s: string) {
    s != "" && forall i :: 0 <= i < |s| ==> RunChar(s[i])
  }

  function NormalizePattern(pattern: string): string {
    StripSlashes(Lower(Trim(pattern)))
  }

  /** The regular expression of the literal pieces joined by runs, as a backtracking matcher. */
  predicate MatchPieces(pieces: seq<string>, s: string)
    requires pieces != []
    decreases |pieces|, |s|, 0
  {
    if |pieces| == 1 then s == pieces[0]
    else pieces[0] <= s && MatchRun(pieces[1..], s[|pieces[0]|..])
  }

  predicate MatchRun(pieces: seq<string>, s: string)
    requires pieces != []
    decreases |pieces|, |s|, 1
  {
    s != "" && RunChar(s[0]) && (MatchPieces(pieces, s[1..]) || MatchRun(pieces, s[1..]))
  }

  predicate OriginMatches(origin: string, pattern: string) {
    var normalized := NormalizePattern(pattern);
    if normalized == "" then false
    else if '*' !in normalized then origin == normalized
    else MatchPieces(Split(normalized, '*'), origin)
  }

  /** The pieces with one filling between each two of them. */
  function Fill(pieces: seq<string>, fills: seq<string>): string
    requires pieces != [] && |fills| == |pieces| - 1
  {
    if fills == [] then pieces[0] else pieces[0] + fills[0] + Fill(pieces[1..], fills[1..])
  }

  ghost predicate FilledByRuns(pieces: seq<string>, fills: seq<string>, s: string) {
    && pieces != [] && |fills| == |pieces| - 1
    && (forall i :: 0 <= i < |fills| ==> IsRun(fills[i]))
    && s == Fill(pieces, fills)
  }

  lemma {:induction false} MatchGivesRuns(pieces: seq<string>, s: string) returns (fills: seq<string>)
    requires pieces != [] && MatchPieces(pieces, s)
    ensures FilledByRuns(pieces, fills, s)
    decreases |pieces|, |s|, 0
  {
    if |pieces| == 1 {
      fills := [];
    } else {
      var run, rest := RunGivesRuns(pieces[1..], s[|pieces[0]|..]);
      fills := [run] + rest;
      assert fills[1..] == rest;
      assert s == pieces[0] + s[|pieces[0]|..];
    }
  }

  lemma {:induction false} RunGivesRuns(pieces: seq<string>, s: string) returns (run: string, fills: seq<string>)
    requires pieces != [] && MatchRun(pieces, s)
    ensures IsRun(run) && |fills| == |pieces| - 1 && s == run + Fill(pieces, fills)
    ensures forall i :: 0 <= i < |fills| ==> IsRun(fills[i])
    decreases |pieces|, |s|, 1
  {
    if MatchPieces(pieces, s[1..]) {
      fills := MatchGivesRuns(pieces, s[1..]);
      run := [s[0]];
    } else {
      var more;
      more, fills := RunGivesRuns(pieces, s[1..]);
      run := [s[0]] + more;
    }
  }

  lemma {:induction false} RunsGiveMatch(pieces: seq<string>, fills: seq<string>, s: string)
    requires FilledByRuns(pieces, fills, s)
    ensures MatchPieces(pieces, s)
    decreases |pieces|
  {
    if fills != [] {
      var tail := Fill(pieces[1..], fills[1..]);
      RunsGiveMatch(pieces[1..], fills[1..], tail);
      ConsumeRun(pieces[1..], fills[0], tail);
      assert s[|pieces[0]|..] == fills[0] + tail;
    }
  }

  lemma {:induction false} ConsumeRun(pieces: seq<string>, run: string, tail: string)
    requires pieces != [] && IsRun(run) && MatchPieces(pieces, tail)
    ensures MatchRun(pieces, run + tail)
    decreases |run|
  {
    assert (run + tail)[1..] == run[1..] + tail;
    if |run| == 1 {
      assert run[1..] + tail == tail;
    } else {
      ConsumeRun(pieces, run[1..], tail);
    }
  }

  /** An origin matches exactly when it is the pattern's pieces joined by non-empty runs. */
  lemma MatchesExactlyFilledPatterns(origin: string, pattern: string)
    ensures OriginMatches(origin, pattern) <==>
              NormalizePattern(pattern) != "" &&
              exists fills :: FilledByRuns(Split(NormalizePattern(pattern), '*'), fills, origin)
  {
    var normalized := NormalizePattern(pattern);
    var pieces := Split(normalized, '*');
    if OriginMatches(origin, pattern) {
      if '*' !in normalized {
        SplitPlain(normalized, '*');
      }
      var fills := MatchGivesRuns(pieces, origin);
    }
    if normalized != "" && exists fills :: FilledByRuns(pieces, fills, origin) {
      var fills :| FilledByRuns(pieces, fills, origin);
      RunsGiveMatch(pieces, fills, origin);
      if '*' !in normalized {
        SplitPlain(normalized, '*');
      }
    }
  }

  function Count(s: string, c: char): nat {
    if s == "" then 0 else (if s[0] == c then 1 else 0) + Count(s[1..], c)
  }

  lemma {:induction false} CountConcat(a: string, b: string, c: char)
    ensures Count(a + b, c) == Count(a, c) + Count(b, c)
  {
    if a == "" {
      assert a + b == b;
    } else {
      assert (a + b)[1..] == a[1..] + b;
      CountConcat(a[1..], b, c);
    }
  }

  lemma {:induction false} CountAbsent(s: string, c: char)
    requires c !in s
    ensures Count(s, c) == 0
  {
    if s != "" {
      CountAbsent(s[1..], c);
    }
  }

  /** A filled pattern has the dots of its joined pieces and no others. */
  lemma {:induction false} FillKeepsDots(pieces: seq<string>, fills: seq<string>)
    requires pieces != [] && |fills| == |pieces| - 1 && forall i :: 0 <= i < |fills| ==> IsRun(fills[i])
    ensures Count(Fill(pieces, fills), '.') == Count(Join(pieces, '*'), '.')
    decreases |pieces|
  {
    if fills != [] {
      FillKeepsDots(pieces[1..], fills[1..]);
      CountConcat(pieces[0] + fills[0], Fill(pieces[1..], fills[1..]), '.');
      CountConcat(pieces[0], fills[0], '.');
      CountAbsent(fills[0], '.');
      CountConcat(pieces[0] + ['*'], Join(pieces[1..], '*'), '.');
      CountConcat(pieces[0], ['*'], '.');
      CountAbsent(['*'], '.');
    }
  }

  /** A wildcard never spans a dot: a matching origin has as many dots as the pattern. */
  lemma MatchHasPatternDots(origin: string, pattern: string)
    requires OriginMatches(origin, pattern)
    ensures Count(origin, '.') == Count(NormalizePattern(pattern), '.')
  {
    MatchesExactlyFilledPatterns(origin, pattern);
    var pieces := Split(NormalizePattern(pattern), '*');
    var fills :| FilledByRuns(pieces, fills, origin);
    FillKeepsDots(pieces, fills);
    JoinSplit(NormalizePattern(pattern), '*');
  }
}
