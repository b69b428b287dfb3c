/**
 * What the normalizers mean: each cuts its input into words at separator characters and joins the
 * words with a single separator. This is proved of match tokens, path segments and grade names.
 */
module Words {
  import opened Prelude
  import opened Text
  import MatchTokens
  import ObjectKeys
  import GradeRequests

  /** The maximal runs of characters that are no separators. */
  function WordsOf(s: string, sep: char -> bool): (ws: seq<string>)
    ensures s != "" && !sep(s[0]) ==> ws != []
  {
    if s == "" then []
    else
      var rest := WordsOf(s[1..], sep);
      if sep(s[0]) then rest
      else if |s| == 1 || sep(s[1]) then [[s[0]]] + rest
      else [[s[0]] + rest[0]] + rest[1..]
  }

  function Glue(ws: seq<string>, c: char): string {
    if ws == [] then "" else Join(ws, c)
  }

  /** Words are not empty and hold no separator. */
  ghost predicate AreWords(ws: seq<string>, sep: char -> bool) {
    forall i :: 0 <= i < |ws| ==> ws[i] != "" && forall j :: 0 <= j < |ws[i]| ==> !sep(ws[i][j])
  }

  lemma {:induction false} WordsAreWords(s: string, sep: char -> bool)
    ensures AreWords(WordsOf(s, sep), sep)
  {
    if s != "" {
      WordsAreWords(s[1..], sep);
      var ws, rest := WordsOf(s, sep), WordsOf(s[1..], sep);
      forall i | 0 <= i < |ws| ensures ws[i] != "" && forall j :: 0 <= j < |ws[i]| ==> !sep(ws[i][j]) {
        if !sep(s[0]) {
          assert i > 0 ==> ws[i] in rest;
        }
      }
    }
  }

  lemma {:induction false} GlueEnds(ws: seq<string>, sep: char -> bool, c: char)
    requires AreWords(ws, sep) && ws != []
    ensures var g := Glue(ws, c); g != "" && !sep(g[0]) && !sep(g[|g| - 1])
    decreases |ws|
  {
    if |ws| > 1 {
      var rest := ws[1..];
      forall i | 0 <= i < |rest| ensures rest[i] != "" && forall j :: 0 <= j < |rest[i]| ==> !sep(rest[i][j]) {
        assert rest[i] == ws[i + 1];
      }
      GlueEnds(rest, sep, c);
      assert Join(ws, c) == ws[0] + [c] + Join(rest, c);
      assert ws[0] != "" && Join(ws, c)[0] == ws[0][0];
    }
  }

  function Lead(s: string, p: char -> bool, c: char): string {
    if s != "" && p(s[0]) then [c] else ""
  }

  function Trail(s: string, p: char -> bool, c: char): string {
    if s != "" && p(s[|s| - 1]) && WordsOf(s, p) != [] then [c] else ""
  }

  lemma JoinHead(x: char, w: string, rest: seq<string>, c: char)
    ensures Join([[x] + w] + rest, c) == [x] + Join([w] + rest, c)
  {
    if rest != [] {
      assert ([[x] + w] + rest)[1..] == rest && ([w] + rest)[1..] == rest;
    }
  }

  lemma {:induction false} SeparatorsOnly(s: string, p: char -> bool)
    requires WordsOf(s, p) == []
    ensures forall i :: 0 <= i < |s| ==> p(s[i])
  {
    if s != "" {
      SeparatorsOnly(s[1..], p);
    }
  }

  lemma SeparatorFirst(s: string, p: char -> bool, c: char)
    requires s != "" && p(s[0])
    requires ReplaceRuns(s[1..], p, c) == Lead(s[1..], p, c) + Glue(WordsOf(s[1..], p), c) + Trail(s[1..], p, c)
    ensures ReplaceRuns(s, p, c) == Lead(s, p, c) + Glue(WordsOf(s, p), c) + Trail(s, p, c)
  {
    hide Glue;
    var t := s[1..];
    assert WordsOf(s, p) == WordsOf(t, p);
    assert t != "" ==> t[|t| - 1] == s[|s| - 1];
    assert Trail(s, p, c) == Trail(t, p, c);
  }

  lemma GlueCons(w: string, rest: seq<string>, c: char)
    ensures Glue([w] + rest, c) == if rest == [] then w else w + [c] + Glue(rest, c)
  {
    assert ([w] + rest)[1..] == rest;
  }

  lemma WordEnds(s: string, p: char -> bool, c: char)
    requires s != "" && !p(s[0]) && (|s| == 1 || p(s[1]))
    requires ReplaceRuns(s[1..], p, c) == Lead(s[1..], p, c) + Glue(WordsOf(s[1..], p), c) + Trail(s[1..], p, c)
    ensures ReplaceRuns(s, p, c) == Lead(s, p, c) + Glue(WordsOf(s, p), c) + Trail(s, p, c)
  {
    hide Glue;
    var t, rest := s[1..], WordsOf(s[1..], p);
    assert WordsOf(s, p) == [[s[0]]] + rest;
    GlueCons([s[0]], rest, c);
    assert t != "" ==> t[|t| - 1] == s[|s| - 1];
    assert ReplaceRuns(s, p, c) == [s[0]] + ReplaceRuns(t, p, c);
    GlueNothing(c);
    if rest == [] {
      SeparatorsOnly(t, p);
    }
  }

  lemma GlueNothing(c: char)
    ensures Glue([], c) == ""
  {
  }

  lemma WordGoesOn(s: string, p: char -> bool, c: char)
    requires |s| > 1 && !p(s[0]) && !p(s[1])
    requires ReplaceRuns(s[1..], p, c) == Lead(s[1..], p, c) + Glue(WordsOf(s[1..], p), c) + Trail(s[1..], p, c)
    ensures ReplaceRuns(s, p, c) == Lead(s, p, c) + Glue(WordsOf(s, p), c) + Trail(s, p, c)
  {
    hide Join;
    var t, rest := s[1..], WordsOf(s[1..], p);
    assert ReplaceRuns(s, p, c) == [s[0]] + ReplaceRuns(t, p, c);
    JoinHead(s[0], rest[0], rest[1..], c);
    assert [rest[0]] + rest[1..] == rest;
    assert Glue(WordsOf(s, p), c) == [s[0]] + Glue(rest, c);
    assert t[|t| - 1] == s[|s| - 1];
    assert Trail(s, p, c) == Trail(t, p, c);
  }

  /** Replacing runs leaves the words, glued, between what is left of the outer separators. */
  lemma {:induction false} RunsAreGlue(s: string, p: char -> bool, c: char)
    ensures ReplaceRuns(s, p, c) == Lead(s, p, c) + Glue(WordsOf(s, p), c) + Trail(s, p, c)
  {
    if s != "" {
      RunsAreGlue(s[1..], p, c);
      if p(s[0]) {
        SeparatorFirst(s, p, c);
      } else if |s| == 1 || p(s[1]) {
        WordEnds(s, p, c);
      } else {
        WordGoesOn(s, p, c);
      }
    }
  }

  // ---- Trimming glued words ---------------------------------------------------------------------

  lemma TrimEndFixed(g: string)
    requires g != "" ==> !IsSpace(g[|g| - 1])
    ensures TrimEnd(g) == g
  {
  }

  lemma TrimGlue(lead: string, g: string, trail: string)
    requires lead in {"", " "} && trail in {"", " "} && (g == "" ==> trail == "")
    requires g != "" ==> !IsSpace(g[0]) && !IsSpace(g[|g| - 1])
    ensures Trim(lead + g + trail) == g
  {
    var s := lead + g + trail;
    if lead != "" {
      assert s[1..] == g + trail;
    } else {
      assert s == g + trail;
    }
    assert TrimStart(s) == g + trail;
    TrimEndFixed(g);
    if trail != "" {
      assert (g + trail)[..|g|] == g;
    } else {
      assert g + trail == g;
    }
  }

  lemma StripGlue(lead: string, g: string, trail: string)
    requires lead in {"", "_"} && trail in {"", "_"} && (g == "" ==> trail == "")
    requires g != "" ==> g[0] != '_' && g[|g| - 1] != '_'
    ensures ObjectKeys.StripEnd(ObjectKeys.StripStart(lead + g + trail)) == g
  {
    var s := lead + g + trail;
    if lead != "" {
      assert s[1..] == g + trail;
    } else {
      assert s == g + trail;
    }
    assert ObjectKeys.StripStart(s) == g + trail;
    if trail != "" {
      assert (g + trail)[..|g|] == g;
    } else {
      assert g + trail == g;
    }
  }

  // ---- Two rounds of replacing ------------------------------------------------------------------

  /** Separators replaced before, by a separator, cut the same words. */
  lemma {:induction false} WordsAfterRuns(s: string, p: char -> bool, q: char -> bool, both: char -> bool, c: char)
    requires q(c) && forall x :: both(x) <==> p(x) || q(x)
    ensures WordsOf(ReplaceRuns(s, p, c), q) == WordsOf(s, both)
    ensures ReplaceRuns(s, p, c) != "" && s != "" ==> q(ReplaceRuns(s, p, c)[0]) == both(s[0])
    ensures ReplaceRuns(s, p, c) == "" <==> s == ""
  {
    if s != "" {
      var t, r, r' := s[1..], ReplaceRuns(s, p, c), ReplaceRuns(s[1..], p, c);
      WordsAfterRuns(t, p, q, both, c);
      if !p(s[0]) {
        assert r[1..] == r';
      } else if t != "" && p(t[0]) {
        assert r == r';
      } else {
        assert r[1..] == r';
      }
    }
  }

  lemma {:induction false} WordsOfSlice(s: string, sep: char -> bool)
    ensures s != "" && sep(s[|s| - 1]) ==> WordsOf(s[..|s| - 1], sep) == WordsOf(s, sep)
  {
    if s != "" && sep(s[|s| - 1]) && |s| > 1 {
      var t := s[1..];
      WordsOfSlice(t, sep);
      assert s[..|s| - 1][1..] == t[..|t| - 1];
    }
  }

  lemma {:induction false} WordsOfTrimStart(s: string, sep: char -> bool)
    requires forall x :: IsSpace(x) ==> sep(x)
    ensures WordsOf(TrimStart(s), sep) == WordsOf(s, sep)
  {
    if s != "" && IsSpace(s[0]) {
      WordsOfTrimStart(s[1..], sep);
    }
  }

  lemma {:induction false} WordsOfTrimEnd(s: string, sep: char -> bool)
    requires forall x :: IsSpace(x) ==> sep(x)
    ensures WordsOf(TrimEnd(s), sep) == WordsOf(s, sep)
  {
    if s != "" && IsSpace(s[|s| - 1]) {
      WordsOfTrimEnd(s[..|s| - 1], sep);
      WordsOfSlice(s, sep);
    }
  }

  lemma WordsOfTrim(s: string, sep: char -> bool)
    requires forall x :: IsSpace(x) ==> sep(x)
    ensures WordsOf(Trim(s), sep) == WordsOf(s, sep)
  {
    WordsOfTrimStart(s, sep);
    WordsOfTrimEnd(TrimStart(s), sep);
  }

  // ---- The normalizers --------------------------------------------------------------------------

  predicate SpaceOrDash(c: char) {
    IsSpace(c) || c == '_' || c == '-'
  }

  /** Collapsing blanks and trimming leaves the words between blanks. */
  lemma TrimmedRunsAreWords(s: string)
    ensures Trim(ReplaceRuns(s, IsSpace, ' ')) == Glue(WordsOf(s, IsSpace), ' ')
  {
    hide ReplaceRuns, Trim, Join, WordsOf;
    RunsAreGlue(s, IsSpace, ' ');
    var ws := WordsOf(s, IsSpace);
    WordsAreWords(s, IsSpace);
    if ws != [] {
      GlueEnds(ws, IsSpace, ' ');
    }
    TrimGlue(Lead(s, IsSpace, ' '), Glue(ws, ' '), Trail(s, IsSpace, ' '));
  }

  lemma {:induction false} UpperOfTrimStart(s: string)
    ensures WordsOf(Upper(TrimStart(s)), SpaceOrDash) == WordsOf(Upper(s), SpaceOrDash)
  {
    if s != "" && IsSpace(s[0]) {
      UpperOfTrimStart(s[1..]);
      assert Upper(s)[1..] == Upper(s[1..]);
    }
  }

  lemma {:induction false} UpperOfTrimEnd(s: string)
    ensures WordsOf(Upper(TrimEnd(s)), SpaceOrDash) == WordsOf(Upper(s), SpaceOrDash)
  {
    if s != "" && IsSpace(s[|s| - 1]) {
      var front := s[..|s| - 1];
      UpperOfTrimEnd(front);
      WordsOfSlice(Upper(s), SpaceOrDash);
      assert Upper(s)[..|s| - 1] == Upper(front);
    }
  }

  /** A match token is the upper-case words of the text between blanks, dashes and underscores, single-spaced. */
  lemma MatchTokenIsWords(value: string)
    ensures MatchTokens.NormalizeMatchToken(value) == Glue(WordsOf(Upper(value), SpaceOrDash), ' ')
  {
    hide ReplaceRuns, WordsOf, Glue, Upper, TrimStart, TrimEnd;
    var u := Upper(Trim(value));
    var a := ReplaceRuns(u, MatchTokens.IsDash, ' ');
    WordsAfterRuns(u, MatchTokens.IsDash, IsSpace, SpaceOrDash, ' ');
    TrimmedRunsAreWords(a);
    UpperOfTrimEnd(TrimStart(value));
    UpperOfTrimStart(value);
  }

  /** Which separator stands where does not matter. */
  lemma {:induction false} SeparatorsAlike(s: string, t: string, sep: char -> bool)
    requires |s| == |t| && forall i :: 0 <= i < |s| ==> s[i] == t[i] || (sep(s[i]) && sep(t[i]))
    ensures WordsOf(s, sep) == WordsOf(t, sep)
  {
    if s != "" {
      SeparatorsAlike(s[1..], t[1..], sep);
    }
  }

  /** A grade name normalized for comparison is its lower-case words, single-spaced. */
  lemma NormalNameIsWords(value: string)
    ensures GradeRequests.NormalName(value) == Glue(WordsOf(Lower(value), IsSpace), ' ')
  {
    hide ReplaceRuns, Trim, WordsOf, Glue, Lower;
    TrimmedRunsAreWords(Lower(value));
  }

  predicate CutsSegment(c: char) {
    !IsLower(c) && !IsUpper(c) && !IsDigit(c) && c != '.' && c != '-'
  }

  /**
   * A path segment, before it is cut to length, is the words of the text made of letters, digits,
   * dots and dashes, joined by single underscores.
   */
  lemma SegmentIsWords(value: string)
    ensures ObjectKeys.Whole(value) == Glue(WordsOf(value, CutsSegment), '_')
  {
    hide ReplaceRuns, Trim, WordsOf, Glue, ObjectKeys.StripStart, ObjectKeys.StripEnd;
    var t := Trim(value);
    var a := ReplaceRuns(t, ObjectKeys.NotObjectChar, '_');
    WordsAfterRuns(t, ObjectKeys.NotObjectChar, ObjectKeys.IsUnderscore, CutsSegment, '_');
    WordsOfTrim(value, CutsSegment);
    StrippedRunsAreWords(a);
  }

  lemma StrippedRunsAreWords(s: string)
    ensures ObjectKeys.StripEnd(ObjectKeys.StripStart(ReplaceRuns(s, ObjectKeys.IsUnderscore, '_')))
         == Glue(WordsOf(s, ObjectKeys.IsUnderscore), '_')
  {
    hide ReplaceRuns, ObjectKeys.StripStart, ObjectKeys.StripEnd, Join, WordsOf;
    RunsAreGlue(s, ObjectKeys.IsUnderscore, '_');
    var ws := WordsOf(s, ObjectKeys.IsUnderscore);
    WordsAreWords(s, ObjectKeys.IsUnderscore);
    if ws != [] {
      GlueEnds(ws, ObjectKeys.IsUnderscore, '_');
    }
    StripGlue(Lead(s, ObjectKeys.IsUnderscore, '_'), Glue(ws, '_'), Trail(s, ObjectKeys.IsUnderscore, '_'));
  }

  /** The segment in the key: at most 120 characters of that, or the fallback when nothing is left. */
  lemma SanitizeSays(value: string, fallback: string)
    ensures var whole := Glue(WordsOf(value, CutsSegment), '_');
            ObjectKeys.Sanitize(value, fallback)
            == if whole == "" then fallback else if |whole| <= 120 then whole else whole[..120]
  {
    hide Glue, WordsOf, ObjectKeys.Whole;
    SegmentIsWords(value);
  }

  // ---- Storage keys ------------------------------------------------------------------------------

  predicate IsSlash(c: char) {
    c == '/'
  }

  lemma {:induction false} PiecesAreWords(s: string)
    ensures ObjectKeys.NonEmpty(Split(s, '/')) == WordsOf(s, IsSlash)
    ensures Split(s, '/')[0] == "" <==> s == "" || s[0] == '/'
  {
    if s != "" {
      var t, rest := s[1..], Split(s[1..], '/');
      PiecesAreWords(t);
      if s[0] == '/' {
        assert ([""] + rest)[1..] == rest;
      } else {
        var pieces := Split(s, '/');
        assert pieces[0] == [s[0]] + rest[0] && pieces[1..] == rest[1..];
        assert ObjectKeys.NonEmpty(pieces) == [pieces[0]] + ObjectKeys.NonEmpty(rest[1..]);
        if rest[0] == "" {
          assert ObjectKeys.NonEmpty(rest) == ObjectKeys.NonEmpty(rest[1..]);
          assert pieces[0] == [s[0]];
        } else {
          assert ObjectKeys.NonEmpty(rest) == [rest[0]] + ObjectKeys.NonEmpty(rest[1..]);
        }
      }
    }
  }

  lemma {:induction false} LeadingSlashesAreNoWords(s: string)
    ensures WordsOf(ObjectKeys.StripLeadingSlashes(s), IsSlash) == WordsOf(s, IsSlash)
  {
    if s != "" && s[0] == '/' {
      LeadingSlashesAreNoWords(s[1..]);
    }
  }

  predicate IsRevision(v: string, revision: int) {
    && |v| >= 2 && (v[0] == 'v' || v[0] == 'V') && ObjectKeys.AllDigits(v[1..])
    && revision == if ObjectKeys.Number(v[1..]) < 1 then 1 else ObjectKeys.Number(v[1..])
  }

  /**
   * A key is read as a library object exactly if it has at least six parts between slashes, the
   * first is "tds" and the last but one a revision; the file is the last part.
   */
  lemma ParsedExactlyWhen(key: string, p: ObjectKeys.Parts)
    ensures ObjectKeys.ParseKey(key) == Some(p) <==>
              var w := WordsOf(key, IsSlash);
              && |w| >= 6 && Lower(w[0]) == "tds" && IsRevision(w[|w| - 2], p.revision)
              && p.category == w[1] && p.grade == w[2] && p.producer == w[3] && p.filename == w[|w| - 1]
  {
    hide WordsOf, Split, Lower, ObjectKeys.NonEmpty, ObjectKeys.StripLeadingSlashes, ObjectKeys.Number, ObjectKeys.AllDigits;
    PiecesAreWords(ObjectKeys.StripLeadingSlashes(key));
    LeadingSlashesAreNoWords(key);
  }
}
