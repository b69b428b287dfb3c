/**
 * What matching answers, in terms of the strings a reader sees: which categories a grade fits,
 * which spellings of a producer meet, and the answer for every set of candidates.
 */
module MatchOutcomes {
  import opened Prelude
  import opened Text
  import opened MatchTokens
  import opened Matcher
  import Words

  // ---- Categories -----------------------------------------------------------------------------

  ghost predicate IsPartOf(part: string, s: string) {
    exists before: string, after: string :: s == before + part + after
  }

  ghost predicate Begins(prefix: string, s: string) {
    exists rest: string :: s == prefix + rest
  }

  /** `word` is what stands before the first blank. */
  ghost predicate IsFirstWord(word: string, s: string) {
    ' ' !in word && (s == word || exists rest: string :: s == word + " " + rest)
  }

  /** One code is named by the category, or one of the two contains the other. */
  ghost predicate Related(code: string, category: string) {
    code != "" && (IsPartOf(category, code) || IsPartOf(code, category))
  }

  /** The category begins with the code, or the code with the category's first word. */
  ghost predicate Heads(code: string, category: string) {
    code != "" && (Begins(code, category) || exists word: string :: IsFirstWord(word, category) && Begins(word, code))
  }

  function SubCode(g: Grade): string { NormalizeMatchToken(g.subcategoryCode.GetOr("")) }

  function GroupCode(g: Grade): string { NormalizeMatchToken(g.gradeGroup.GetOr("")) }

  function TopCode(g: Grade): string { NormalizeMatchToken(g.categoryCode.GetOr("")) }

  /** The grade belongs to a (normalized) category. */
  ghost predicate Belongs(g: Grade, category: string) {
    category == "" || Related(SubCode(g), category) || Related(GroupCode(g), category) || Heads(TopCode(g), category)
  }

  lemma PartExactlyWhen(s: string, part: string)
    ensures Contains(s, part) <==> IsPartOf(part, s)
  {
    if Contains(s, part) {
      var i :| 0 <= i <= |s| && part <= s[i..];
      assert s == s[..i] + part + s[i..][|part|..];
    }
    if before: string, after: string :| s == before + part + after {
      assert s[|before|..] == part + after;
    }
  }

  lemma BeginsExactlyWhen(prefix: string, s: string)
    ensures StartsWith(s, prefix) <==> Begins(prefix, s)
  {
    if StartsWith(s, prefix) {
      assert s == prefix + s[|prefix|..];
    }
  }

  lemma {:induction false} FirstWordIs(s: string)
    ensures IsFirstWord(FirstWord(s), s)
  {
    if s != "" {
      var w := FirstWord(s[1..]);
      FirstWordIs(s[1..]);
      if s[0] == ' ' {
        assert FirstWord(s) == "";
        assert s == "" + " " + s[1..];
      } else {
        assert FirstWord(s) == [s[0]] + w;
        if rest: string :| s[1..] == w + " " + rest {
          assert s == [s[0]] + w + " " + rest;
        }
      }
    }
  }

  lemma FirstWordEnds(s: string, w: string)
    requires IsFirstWord(w, s)
    ensures |w| <= |s| && w == s[..|w|] && (|w| < |s| ==> s[|w|] == ' ') && forall i :: 0 <= i < |w| ==> s[i] != ' '
  {
    if s != w {
      var rest: string :| s == w + " " + rest;
      assert w == s[..|w|];
    }
    assert forall i :: 0 <= i < |w| ==> s[i] == w[i];
  }

  lemma OneFirstWord(s: string, v: string, w: string)
    requires IsFirstWord(v, s) && IsFirstWord(w, s)
    ensures v == w
  {
    hide IsFirstWord;
    FirstWordEnds(s, v);
    FirstWordEnds(s, w);
  }

  lemma HeadsExactlyWhen(top: string, cat: string)
    ensures Heads(top, cat) <==> top != "" && (StartsWith(cat, top) || StartsWith(top, FirstWord(cat)))
  {
    hide FirstWord, IsFirstWord;
    BeginsExactlyWhen(top, cat);
    BeginsExactlyWhen(FirstWord(cat), top);
    FirstWordIs(cat);
    forall w: string | IsFirstWord(w, cat) ensures w == FirstWord(cat) {
      OneFirstWord(cat, w, FirstWord(cat));
    }
  }

  /** The category test is this relation between normalized codes. */
  lemma CompatibleExactlyWhen(g: Grade, category: string)
    ensures CategoryCompatible(g, category) <==> Belongs(g, NormalizeMatchToken(category))
  {
    hide NormalizeMatchToken, Contains, StartsWith, FirstWord, IsPartOf, Heads;
    var cat := NormalizeMatchToken(category);
    PartExactlyWhen(SubCode(g), cat);
    PartExactlyWhen(cat, SubCode(g));
    PartExactlyWhen(GroupCode(g), cat);
    PartExactlyWhen(cat, GroupCode(g));
    HeadsExactlyWhen(TopCode(g), cat);
    EqualIsPart(cat);
  }

  lemma EqualIsPart(s: string)
    ensures IsPartOf(s, s) && StartsWith(s, s) && Contains(s, s)
  {
    assert s == "" + s + "";
    assert s[0..] == s;
  }

  // ---- Answers ----------------------------------------------------------------------------------

  /** The grade has the document's number. */
  predicate HasNumber(g: Grade, number: string) {
    NormalizeMatchToken(if g.gradeNo.Some? && g.gradeNo.value != "" then g.gradeNo.value else g.name) == number
  }

  /** A grade of the number that shares a producer token with the document. */
  ghost predicate Candidate(grades: set<Grade>, input: Input, g: Grade) {
    && g in grades && HasNumber(g, NormalizeMatchToken(input.grade))
    && exists t :: t in ProducerAliasTokens(input.producer) && t in ProducerAliasTokens(g.manufacturer.GetOr(""))
  }

  ghost predicate OnlyCandidate(grades: set<Grade>, input: Input, g: Grade) {
    Candidate(grades, input, g) && forall x :: Candidate(grades, input, x) ==> x == g
  }

  ghost predicate OnlyFitting(grades: set<Grade>, input: Input, g: Grade) {
    var cat := NormalizeMatchToken(input.category);
    && Candidate(grades, input, g) && Belongs(g, cat)
    && forall x :: Candidate(grades, input, x) && Belongs(x, cat) ==> x == g
  }

  ghost predicate OnlyOfNumber(grades: set<Grade>, input: Input, g: Grade) {
    var number := NormalizeMatchToken(input.grade);
    g in grades && HasNumber(g, number) && forall x :: x in grades && HasNumber(x, number) ==> x == g
  }

  ghost predicate NoCandidate(grades: set<Grade>, input: Input) {
    forall x :: !Candidate(grades, input, x)
  }

  ghost predicate NoneFits(grades: set<Grade>, input: Input) {
    forall x :: Candidate(grades, input, x) ==> !Belongs(x, NormalizeMatchToken(input.category))
  }

  lemma NumberIs(g: Grade, number: string)
    ensures HasNumber(g, number) <==> GradeNumber(g) == number
  {
  }

  lemma CandidatesAre(grades: set<Grade>, input: Input, g: Grade)
    ensures g in Candidates(grades, NormalizeMatchToken(input.grade), input.producer) <==> Candidate(grades, input, g)
    ensures g in SameNumber(grades, NormalizeMatchToken(input.grade)) <==>
              g in grades && HasNumber(g, NormalizeMatchToken(input.grade))
  {
    hide ProducerAliasTokens, NormalizeMatchToken;
    NumberIs(g, NormalizeMatchToken(input.grade));
  }

  lemma FittingAre(grades: set<Grade>, input: Input, g: Grade)
    ensures g in Fitting(Candidates(grades, NormalizeMatchToken(input.grade), input.producer), input.category) <==>
              Candidate(grades, input, g) && Belongs(g, NormalizeMatchToken(input.category))
  {
    hide CategoryCompatible, Belongs, Candidate, Candidates, NormalizeMatchToken;
    CandidatesAre(grades, input, g);
    CompatibleExactlyWhen(g, input.category);
  }

  lemma OnlyIs(s: set<Grade>, g: Grade)
    ensures Only(s, g) <==> g in s && forall x :: x in s ==> x == g
  {
  }

  lemma PickCases(candidates: set<Grade>, sameNumber: set<Grade>, input: Input, id: Option<nat>, confidence: Confidence)
    ensures var fitting := Fitting(candidates, input.category);
            Pick(candidates, sameNumber, input) == MatchResult(id, confidence) <==>
              match confidence
              case Exact => exists g :: Only(fitting, g) && id == Some(g.id)
              case Strong => fitting == {} && exists g :: Only(candidates, g) && id == Some(g.id)
              case Weak => candidates == {} && Trim(input.producer) == "" && exists g :: Only(sameNumber, g) && id == Some(g.id)
              case Ambiguous =>
                id == None && candidates != {} && (forall g :: !Only(fitting, g)) && (fitting != {} || forall g :: !Only(candidates, g))
              case NoMatch => id == None && candidates == {} && !(Trim(input.producer) == "" && exists g :: Only(sameNumber, g))
  {
    hide CategoryCompatible, Trim;
    var fitting := Fitting(candidates, input.category);
    assert forall g :: Only(fitting, g) ==> g in fitting && g in candidates;
  }

  /** When each answer is given, for every set of grades and every document with a grade number. */
  ghost predicate Answers(grades: set<Grade>, input: Input, id: Option<nat>, confidence: Confidence) {
    match confidence
    case Exact => exists g :: OnlyFitting(grades, input, g) && id == Some(g.id)
    case Strong => NoneFits(grades, input) && exists g :: OnlyCandidate(grades, input, g) && id == Some(g.id)
    case Weak =>
      NoCandidate(grades, input) && Trim(input.producer) == "" && exists g :: OnlyOfNumber(grades, input, g) && id == Some(g.id)
    case Ambiguous =>
      id == None && !NoCandidate(grades, input) && (forall g :: !OnlyFitting(grades, input, g))
      && (NoneFits(grades, input) ==> forall g :: !OnlyCandidate(grades, input, g))
    case NoMatch =>
      id == None && NoCandidate(grades, input) && !(Trim(input.producer) == "" && exists g :: OnlyOfNumber(grades, input, g))
  }

  lemma ScanAnswersExactly(grades: set<Grade>, input: Input, id: Option<nat>, confidence: Confidence)
    requires NormalizeMatchToken(input.grade) != ""
    ensures MatchByScan(grades, input) == MatchResult(id, confidence) <==> Answers(grades, input, id, confidence)
  {
    hide CategoryCompatible, NormalizeMatchToken, ProducerAliasTokens, Candidate, Belongs, Candidates, SameNumber;
    hide Pick, Fitting, HasNumber, Trim;
    var number := NormalizeMatchToken(input.grade);
    var c, n := Candidates(grades, number, input.producer), SameNumber(grades, number);
    var f := Fitting(c, input.category);
    forall g
      ensures g in c <==> Candidate(grades, input, g)
      ensures g in n <==> g in grades && HasNumber(g, number)
      ensures g in f <==> Candidate(grades, input, g) && Belongs(g, NormalizeMatchToken(input.category))
    {
      CandidatesAre(grades, input, g);
      FittingAre(grades, input, g);
    }
    forall g
      ensures Only(c, g) <==> OnlyCandidate(grades, input, g)
      ensures Only(f, g) <==> OnlyFitting(grades, input, g)
      ensures Only(n, g) <==> OnlyOfNumber(grades, input, g)
    {
      OnlyIs(c, g);
      OnlyIs(f, g);
      OnlyIs(n, g);
    }
    assert c == {} <==> NoCandidate(grades, input);
    assert f == {} <==> NoneFits(grades, input);
    PickCases(c, n, input, id, confidence);
  }

  predicate WithoutCodes(g: Grade) {
    SubCode(g) == "" && GroupCode(g) == "" && TopCode(g) == ""
  }

  predicate NamesCategory(g: Grade, category: string) {
    category != "" && (SubCode(g) == category || GroupCode(g) == category || TopCode(g) == category)
  }

  lemma CodesDecide(g: Grade, category: string)
    ensures NamesCategory(g, category) ==> Belongs(g, category)
    ensures WithoutCodes(g) && category != "" ==> !Belongs(g, category)
  {
    hide NormalizeMatchToken, IsPartOf, IsFirstWord;
    EqualIsPart(category);
    BeginsExactlyWhen(category, category);
  }

  /**
   * The one candidate that names the document's category wins over any number without codes; a
   * lone candidate without codes is a strong answer, not an exact one.
   */
  lemma NamedCategoryWins(grades: set<Grade>, input: Input, g: Grade)
    requires NormalizeMatchToken(input.grade) != "" && NormalizeMatchToken(input.category) != "" && Candidate(grades, input, g)
    requires forall x :: Candidate(grades, input, x) && x != g ==> WithoutCodes(x)
    ensures NamesCategory(g, NormalizeMatchToken(input.category)) ==> MatchByScan(grades, input) == MatchResult(Some(g.id), Exact)
    ensures OnlyCandidate(grades, input, g) && WithoutCodes(g) ==> MatchByScan(grades, input) == MatchResult(Some(g.id), Strong)
  {
    hide NormalizeMatchToken, Candidate, Belongs, NamesCategory, WithoutCodes, MatchByScan;
    var cat := NormalizeMatchToken(input.category);
    forall x ensures Candidate(grades, input, x) && x != g ==> !Belongs(x, cat) {
      CodesDecide(x, cat);
    }
    CodesDecide(g, cat);
    ScanAnswersExactly(grades, input, Some(g.id), Exact);
    ScanAnswersExactly(grades, input, Some(g.id), Strong);
    assert Belongs(g, cat) ==> OnlyFitting(grades, input, g);
  }

  /** Spellings of a category that normalize alike get the same answer. */
  lemma CategorySpellingIsInvisible(index: Index, a: Input, b: Input)
    requires a.grade == b.grade && a.producer == b.producer && NormalizeMatchToken(a.category) == NormalizeMatchToken(b.category)
    ensures MatchFromIndex(index, a) == MatchFromIndex(index, b)
  {
    hide NormalizeMatchToken, ProducerAliasTokens, Trim;
    var number := NormalizeMatchToken(a.grade);
    var hits := Hits(index, number, ProducerAliasTokens(a.producer));
    assert Fitting(hits, a.category) == Fitting(hits, b.category);
  }

  // ---- Producers ----------------------------------------------------------------------------------

  /** What is written of a producer itself: the whole name, the base name, its long words, and what stands in parentheses. */
  ghost predicate OwnToken(value: string, t: string) {
    var raw := Trim(value);
    && t != ""
    && (|| t == NormalizeMatchToken(raw)
        || t == ProducerBaseName(raw)
        || (exists inner :: inner in Inners(raw) && t == NormalizeMatchToken(inner))
        || (t in Split(ProducerBaseName(raw), ' ') && |t| >= 3))
  }

  ghost predicate KnownAlias(own: string, t: string) {
    exists group :: group in PRODUCER_ALIAS_GROUPS && own in group && t in group
  }

  lemma {:induction false} AddAllIs(ts: seq<string>, more: seq<string>, t: string)
    ensures t in AddAll(ts, more) <==> t in ts || (t in more && t != "")
    decreases more
  {
    if more != [] {
      AddAllIs(Add(ts, more[0]), more[1..], t);
      assert t in more <==> t == more[0] || t in more[1..];
    }
  }

  lemma {:induction false} LongPartsAre(parts: seq<string>, t: string)
    ensures t in LongParts(parts) <==> t in parts && |t| >= 3
  {
    if parts != [] {
      LongPartsAre(parts[1..], t);
      assert t in parts <==> t == parts[0] || t in parts[1..];
    }
  }

  lemma {:induction false} GroupsAre(groups: seq<seq<string>>, own: string, t: string)
    ensures t in GroupsWith(groups, own) <==> exists group :: group in groups && own in group && t in group
  {
    if groups != [] {
      GroupsAre(groups[1..], own, t);
      assert forall group :: group in groups <==> group == groups[0] || group in groups[1..];
    }
  }

  lemma {:induction false} ExpandedAre(tokens: seq<string>, t: string)
    ensures t in ExpandAll(tokens) <==> exists own :: own in tokens && KnownAlias(own, t)
  {
    hide PRODUCER_ALIAS_GROUPS, KnownAlias;
    if tokens != [] {
      ExpandedAre(tokens[1..], t);
      AliasesAre(tokens[0], t);
      assert forall own :: own in tokens <==> own == tokens[0] || own in tokens[1..];
    }
  }

  lemma AliasesAre(own: string, t: string)
    ensures t in ExpandKnownProducerAliases(own) <==> KnownAlias(own, t)
  {
    hide PRODUCER_ALIAS_GROUPS;
    GroupsAre(PRODUCER_ALIAS_GROUPS, own, t);
  }

  lemma OwnTokensAre(value: string, t: string)
    ensures t in OwnTokens(value) <==> OwnToken(value, t)
  {
    hide NormalizeMatchToken, ProducerBaseName, Inners, Split, Trim, AddAll, LongParts;
    var raw := Trim(value);
    var base := ProducerBaseName(raw);
    var first := Add(Add([], NormalizeMatchToken(raw)), base);
    AddAllIs(first, NormalizeAll(Inners(raw)), t);
    AddAllIs(AddAll(first, NormalizeAll(Inners(raw))), LongParts(Split(base, ' ')), t);
    LongPartsAre(Split(base, ' '), t);
    NormalizedAre(Inners(raw), t);
  }

  lemma NormalizedAre(parts: seq<string>, t: string)
    ensures t in NormalizeAll(parts) <==> exists p :: p in parts && t == NormalizeMatchToken(p)
  {
    hide NormalizeMatchToken;
    if p :| p in parts && t == NormalizeMatchToken(p) {
      var i :| 0 <= i < |parts| && parts[i] == p;
      assert NormalizeAll(parts)[i] == t;
    }
  }

  /** A producer's tokens are its own and their known aliases, and nothing else. */
  lemma TokensExactlyWhen(value: string, t: string)
    ensures t in ProducerAliasTokens(value) <==>
              OwnToken(value, t) || (t != "" && exists own :: OwnToken(value, own) && KnownAlias(own, t))
  {
    hide OwnTokens, OwnToken, KnownAlias, AddAll, ExpandAll;
    AddAllIs(OwnTokens(value), ExpandAll(OwnTokens(value)), t);
    ExpandedAre(OwnTokens(value), t);
    forall own ensures own in OwnTokens(value) <==> OwnToken(value, own) {
      OwnTokensAre(value, own);
    }
  }

  /** Two spellings of one group meet in a token, whoever writes which. */
  lemma AliasesMeet(a: string, b: string, group: seq<string>)
    requires group in PRODUCER_ALIAS_GROUPS && NormalizeMatchToken(Trim(a)) in group && NormalizeMatchToken(Trim(b)) in group
    ensures NormalizeMatchToken(Trim(a)) in ProducerAliasTokens(a) && NormalizeMatchToken(Trim(a)) in ProducerAliasTokens(b)
  {
    hide ProducerAliasTokens, NormalizeMatchToken, PRODUCER_ALIAS_GROUPS;
    var x, y := NormalizeMatchToken(Trim(a)), NormalizeMatchToken(Trim(b));
    AliasesAreNamed(group);
    TokensExactlyWhen(a, x);
    TokensExactlyWhen(b, x);
    assert OwnToken(b, y) && KnownAlias(y, x);
  }

  lemma AliasesAreNamed(group: seq<string>)
    requires group in PRODUCER_ALIAS_GROUPS
    ensures "" !in group
  {
  }

  // ---- Names with a second name in parentheses -----------------------------------------------------

  predicate Plain(s: string) {
    s != "" && Trimmed(s) && '(' !in s && ')' !in s
  }

  lemma {:induction false} CloseBehind(b: string)
    requires ')' !in b
    ensures AfterClose(b + ")") == Some("")
  {
    if b == "" {
      assert ")"[1..] == "";
    } else {
      CloseBehind(b[1..]);
      assert (b + ")")[1..] == b[1..] + ")";
    }
  }

  lemma {:induction false} TrimStartKeeps(a: string, rest: string)
    requires a != "" && !IsSpace(a[|a| - 1])
    ensures TrimStart(a + rest) != "" && TrimStart(a + rest)[0] in a
  {
    if IsSpace(a[0]) {
      TrimStartKeeps(a[1..], rest);
      assert (a + rest)[1..] == a[1..] + rest;
    }
  }

  lemma {:induction false} StripsBehind(a: string, b: string)
    requires '(' !in a && (a != "" ==> !IsSpace(a[|a| - 1])) && ')' !in b
    ensures StripParens(a + " (" + b + ")") == a + " "
  {
    var s := a + " (" + b + ")";
    if a == "" {
      var t := "(" + b + ")";
      assert s[1..] == t && TrimStart(s) == TrimStart(t) == t;
      assert t[1..] == b + ")";
      CloseBehind(b);
      assert s[0] == ' ';
    } else {
      var rest := " (" + b + ")";
      assert s == a + rest;
      TrimStartKeeps(a, rest);
      assert s[1..] == a[1..] + " (" + b + ")";
      StripsBehind(a[1..], b);
      assert a[1..] != "" ==> a[1..][|a[1..]| - 1] == a[|a| - 1];
    }
  }

  lemma {:induction false} WithoutNone(b: string, rest: string)
    requires '(' !in b && ')' !in b
    ensures WithoutParens(b + rest) == b + WithoutParens(rest)
  {
    if b == "" {
      assert b + rest == rest;
    } else {
      var s := b + rest;
      WithoutNone(b[1..], rest);
      assert s[0] == b[0] && s[1..] == b[1..] + rest && b[0] in b;
      assert WithoutParens(s) == [s[0]] + WithoutParens(s[1..]);
      assert b == [b[0]] + b[1..];
    }
  }

  lemma {:induction false} InnersBehind(a: string, b: string)
    requires '(' !in a && b != "" && '(' !in b && ')' !in b
    ensures Inners(a + "(" + b + ")") == [b]
  {
    var s := a + "(" + b + ")";
    if a == "" {
      assert s == "(" + b + ")" && s[1..] == b + ")";
      CloseBehind(b);
      assert s[..|s| - |""|] == s;
      WithoutNone(b, ")");
      assert WithoutParens(")") == WithoutParens(")"[1..]) == "";
      assert WithoutParens(s) == b;
      assert Inners(s) == [WithoutParens(s)] + Inners("");
    } else {
      InnersBehind(a[1..], b);
      assert s[1..] == a[1..] + "(" + b + ")";
    }
  }

  /** "A (B)" has the tokens of both spellings: A as its base name, B as what stands in parentheses. */
  lemma ParenthesesAddName(a: string, b: string)
    requires Plain(a) && Plain(b)
    ensures var value := a + " (" + b + ")";
            && ProducerBaseName(value) == NormalizeMatchToken(a)
            && (NormalizeMatchToken(a) != "" ==> NormalizeMatchToken(a) in ProducerAliasTokens(value))
            && (NormalizeMatchToken(b) != "" ==> NormalizeMatchToken(b) in ProducerAliasTokens(value))
  {
    hide ProducerAliasTokens, NormalizeMatchToken, StripParens, Inners;
    var value := a + " (" + b + ")";
    assert value[0] == a[0] && value[|value| - 1] == ')';
    TrimFixed(value);
    StripsBehind(a, b);
    InnersBehind(a + " ", b);
    assert value == a + " " + "(" + b + ")";
    TrimsTrailing(a);
    TokensExactlyWhen(value, NormalizeMatchToken(a));
    TokensExactlyWhen(value, NormalizeMatchToken(b));
  }

  lemma TrimsTrailing(a: string)
    requires a != "" && Trimmed(a)
    ensures Trim(a + " ") == a
  {
    var s := a + " ";
    assert s[0] == a[0] && s[..|s| - 1] == a;
    assert TrimStart(s) == s;
    assert TrimEnd(s) == TrimEnd(a) == a;
  }

  // ---- Names as they stand in storage paths ----------------------------------------------------------

  /** An upper-case word as a path spells it. */
  predicate PathWord(w: string) {
    w != "" && forall i :: 0 <= i < |w| ==> IsUpper(w[i]) || IsDigit(w[i])
  }

  lemma {:induction false} OneWord(w: string)
    requires PathWord(w)
    ensures Words.WordsOf(w, Words.SpaceOrDash) == [w]
  {
    assert w == [w[0]] + w[1..];
    if |w| > 1 {
      OneWord(w[1..]);
    } else {
      assert Words.WordsOf(w[1..], Words.SpaceOrDash) == [];
      assert Words.WordsOf(w, Words.SpaceOrDash) == [[w[0]]] + [];
      assert w == [w[0]];
    }
  }

  lemma {:induction false} TwoWords(a: string, b: string)
    requires PathWord(a) && PathWord(b)
    ensures Words.WordsOf(a + "_" + b, Words.SpaceOrDash) == [a, b]
  {
    var s := a + "_" + b;
    assert a == [a[0]] + a[1..];
    if |a| == 1 {
      var t := "_" + b;
      assert s[1..] == t && t[1..] == b;
      OneWord(b);
      assert Words.WordsOf(t, Words.SpaceOrDash) == [b];
      assert Words.WordsOf(s, Words.SpaceOrDash) == [[s[0]]] + [b];
      assert a == [s[0]];
    } else {
      assert s[1..] == a[1..] + "_" + b;
      TwoWords(a[1..], b);
    }
  }

  lemma {:induction false} StripsNothing(s: string)
    requires '(' !in s
    ensures StripParens(s) == s
  {
    if s != "" {
      StripsNothing(s[1..]);
      var from := TrimStartIsSuffix(s);
    }
  }

  lemma {:induction false} SplitTwo(a: string, b: string)
    requires ' ' !in a
    ensures a in Split(a + " " + b, ' ')
  {
    var s := a + " " + b;
    if a != "" {
      SplitFirst(a, b);
    } else {
      assert s[0] == ' ';
    }
  }

  lemma {:induction false} SplitFirst(a: string, b: string)
    requires ' ' !in a
    ensures Split(a + " " + b, ' ')[0] == a
  {
    var s := a + " " + b;
    if a != "" {
      SplitFirst(a[1..], b);
      assert s[1..] == a[1..] + " " + b;
    }
  }

  /** The path A_B is the producer A B, so every spelling known for A is one of its tokens. */
  lemma PathSpellingMeets(a: string, b: string, group: seq<string>, t: string)
    requires PathWord(a) && PathWord(b) && |a| >= 3 && group in PRODUCER_ALIAS_GROUPS && a in group && t in group
    ensures ProducerBaseName(a + "_" + b) == a + " " + b && t in ProducerAliasTokens(a + "_" + b)
  {
    hide ProducerAliasTokens, NormalizeMatchToken, PRODUCER_ALIAS_GROUPS, StripParens, Inners, Split, Words.WordsOf;
    var value := a + "_" + b;
    assert value[0] == a[0] && value[|value| - 1] == b[|b| - 1];
    TrimFixed(value);
    assert forall i :: 0 <= i < |value| ==> value[i] == if i < |a| then a[i] else if i == |a| then '_' else b[i - |a| - 1];
    assert Upper(value) == value;
    StripsNothing(value);
    Words.MatchTokenIsWords(value);
    TwoWords(a, b);
    assert Join([a, b], ' ') == a + [' '] + Join([b], ' ') && Join([b], ' ') == b by { JoinPair(a, b); }
    SplitTwo(a, b);
    AliasesAreNamed(group);
    TokensExactlyWhen(value, t);
    assert OwnToken(value, a) && KnownAlias(a, t);
  }

  lemma JoinPair(a: string, b: string)
    ensures Join([a, b], ' ') == a + [' '] + Join([b], ' ') && Join([b], ' ') == b
  {
    assert [a, b][1..] == [b];
  }

  /** The pairing the normalizer was written for: files of EXXONMOBIL_VISTAMAX belong to grades of EXXON. */
  lemma ExxonMeetsVistamax()
    ensures "EXXON" in ProducerAliasTokens("EXXONMOBIL_VISTAMAX") && "EXXON" in ProducerAliasTokens("EXXON")
  {
    hide ProducerAliasTokens, Neat;
    var group := PRODUCER_ALIAS_GROUPS[0];
    assert "EXXONMOBIL" + "_" + "VISTAMAX" == "EXXONMOBIL_VISTAMAX";
    assert group[0] == "EXXON" && group[1] == "EXXONMOBIL";
    PathSpellingMeets("EXXONMOBIL", "VISTAMAX", group, "EXXON");
    assert Neat("EXXON") by { NeatWord(); }
    NeatTokenIsOwn("EXXON");
  }

  lemma NeatWord()
    ensures Neat("EXXON")
  {
  }

  // ---- Import keys -----------------------------------------------------------------------------------

  lemma BarParts(a: string, x: string, b: string, y: string)
    requires '|' !in a && '|' !in b && a + "|" + x == b + "|" + y
    ensures a == b && x == y
  {
    var s, t := a + "|" + x, b + "|" + y;
    assert s[|a|] == '|' && t[|b|] == '|';
    assert a == s[..|a|] && b == t[..|b|] && x == s[|a| + 1..] && y == t[|b| + 1..];
  }

  /** Of names without bars, rows share an import key exactly when category, grade, producer and path agree as match tokens. */
  lemma ImportKeysAgreeExactlyWhen(c: string, g: string, p: string, path: string, c': string, g': string, p': string, path': string)
    requires BarFree(c) && BarFree(g) && BarFree(p) && BarFree(c') && BarFree(g') && BarFree(p')
    ensures BuildImportKey(c, g, p, path) == BuildImportKey(c', g', p', path') <==>
              && NormalizeMatchToken(c) == NormalizeMatchToken(c') && NormalizeMatchToken(g) == NormalizeMatchToken(g')
              && NormalizeMatchToken(p) == NormalizeMatchToken(p')
              && ForwardSlashes(NormalizeMatchToken(path)) == ForwardSlashes(NormalizeMatchToken(path'))
  {
    hide NormalizeMatchToken, ForwardSlashes;
    NormalizeBarFree(c);
    NormalizeBarFree(g);
    NormalizeBarFree(p);
    NormalizeBarFree(c');
    NormalizeBarFree(g');
    NormalizeBarFree(p');
    var a1, a2, a3 := NormalizeMatchToken(c), NormalizeMatchToken(g), NormalizeMatchToken(p);
    var b1, b2, b3 := NormalizeMatchToken(c'), NormalizeMatchToken(g'), NormalizeMatchToken(p');
    var a4, b4 := ForwardSlashes(NormalizeMatchToken(path)), ForwardSlashes(NormalizeMatchToken(path'));
    KeyNests(a1, a2, a3, a4);
    KeyNests(b1, b2, b3, b4);
    if BuildImportKey(c, g, p, path) == BuildImportKey(c', g', p', path') {
      BarParts(a1, a2 + "|" + (a3 + "|" + a4), b1, b2 + "|" + (b3 + "|" + b4));
      BarParts(a2, a3 + "|" + a4, b2, b3 + "|" + b4);
      BarParts(a3, a4, b3, b4);
    }
  }

  lemma KeyNests(a: string, b: string, c: string, d: string)
    ensures a + "|" + b + "|" + c + "|" + d == a + "|" + (b + "|" + (c + "|" + d))
  {
  }
}
