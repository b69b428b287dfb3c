/**
 * Pairing a document with a catalogue grade: an index keyed by grade number and producer
 * token, and the rule that picks a grade from what the index finds.
 */
module Matcher {
  import opened Prelude
  import opened Text
  import opened MatchTokens

  datatype Grade = Grade(
    id: nat, name: string, gradeNo: Option<string>, gradeGroup: Option<string>, manufacturer: Option<string>,
    categoryCode: Option<string>, subcategoryCode: Option<string>)

  datatype Confidence = Exact | Strong | Weak | NoMatch | Ambiguous

  datatype MatchResult = MatchResult(gradeId: Option<nat>, confidence: Confidence)

  datatype Input = Input(category: string, grade: string, producer: string)

  type Lists = map<string, seq<Grade>>

  datatype Index = Index(byGradeProducer: Lists, byGradeOnly: Lists)

  // ---- The index -----------------------------------------------------------------------

  function GradeNumber(g: Grade): string {
    NormalizeMatchToken(if g.gradeNo.GetOr("") == "" then g.name else g.gradeNo.value)
  }

  function GradeTokens(g: Grade): seq<string> {
    ProducerAliasTokens(g.manufacturer.GetOr(""))
  }

  function Key(number: string, token: string): string {
    number + "||" + token
  }

  function At(m: Lists, key: string): seq<Grade> {
    if key in m then m[key] else []
  }

  function Append(m: Lists, key: string, g: Grade): Lists {
    m[key := At(m, key) + [g]]
  }

  function IndexTokens(m: Lists, number: string, tokens: seq<string>, g: Grade): Lists
    decreases tokens
  {
    if tokens == [] then m else IndexTokens(Append(m, Key(number, tokens[0]), g), number, tokens[1..], g)
  }

  function IndexGrade(index: Index, g: Grade): Index {
    var number := GradeNumber(g);
    if number == "" then index
    else
      var only := Append(index.byGradeOnly, number, g);
      var byToken := IndexTokens(index.byGradeProducer, number, GradeTokens(g), g);
      var baseKey := Key(NormalizeMatchToken(number), ProducerBaseName(g.manufacturer.GetOr("")));
      Index(if baseKey in byToken then byToken else byToken[baseKey := [g]], only)
  }

  function BuildIndex(grades: seq<Grade>): Index {
    if grades == [] then Index(map[], map[]) else IndexGrade(BuildIndex(grades[..|grades| - 1]), grades[|grades| - 1])
  }

  // ---- Picking a grade --------------------------------------------------------------------

  function FirstWord(s: string): string {
    Split(s, ' ')[0]
  }

  predicate CategoryCompatible(g: Grade, excelCategory: string) {
    var cat := NormalizeMatchToken(excelCategory);
    var group := NormalizeMatchToken(g.gradeGroup.GetOr(""));
    var sub := NormalizeMatchToken(g.subcategoryCode.GetOr(""));
    var top := NormalizeMatchToken(g.categoryCode.GetOr(""));
    || cat == ""
    || (sub != "" && sub == cat)
    || (group != "" && group == cat)
    || (top != "" && (top == cat || StartsWith(cat, top) || StartsWith(top, FirstWord(cat))))
    || (group != "" && (Contains(group, cat) || Contains(cat, group)))
    || (sub != "" && (Contains(sub, cat) || Contains(cat, sub)))
  }

  ghost predicate Only(s: set<Grade>, g: Grade) {
    s == {g}
  }

  ghost function TheOne(s: set<Grade>): (g: Grade)
    requires exists g :: Only(s, g)
    ensures s == {g}
  {
    var g :| Only(s, g);
    g
  }

  ghost function Fitting(candidates: set<Grade>, category: string): set<Grade> {
    set g | g in candidates && CategoryCompatible(g, category)
  }

  /**
   * The pick, as a function of the sets alone: the candidates that share grade number and a
   * producer token, and all grades with the number.
   */
  ghost function Pick(candidates: set<Grade>, sameNumber: set<Grade>, input: Input): MatchResult {
    var fitting := Fitting(candidates, input.category);
    if candidates == {} then
      if (exists g :: Only(sameNumber, g)) && Trim(input.producer) == ""
      then MatchResult(Some(TheOne(sameNumber).id), Weak)
      else MatchResult(None, NoMatch)
    else if exists g :: Only(fitting, g) then MatchResult(Some(TheOne(fitting).id), Exact)
    else if fitting != {} then MatchResult(None, Ambiguous)
    else if exists g :: Only(candidates, g) then MatchResult(Some(TheOne(candidates).id), Strong)
    else MatchResult(None, Ambiguous)
  }

  /** What the maps find for a grade number and the tokens of a producer. */
  ghost function Hits(index: Index, number: string, tokens: seq<string>): set<Grade> {
    set t, g | t in tokens && g in At(index.byGradeProducer, Key(number, t)) :: g
  }

  ghost function ToSet(s: seq<Grade>): set<Grade> {
    set g | g in s
  }

  ghost function MatchFromIndex(index: Index, input: Input): MatchResult {
    var number := NormalizeMatchToken(input.grade);
    if number == "" then MatchResult(None, NoMatch)
    else Pick(Hits(index, number, ProducerAliasTokens(input.producer)), ToSet(At(index.byGradeOnly, number)), input)
  }

  // ---- The plain scan ----------------------------------------------------------------------

  ghost predicate SharesToken(g: Grade, producer: string) {
    exists t :: t in ProducerAliasTokens(producer) && t in GradeTokens(g)
  }

  ghost function SameNumber(grades: set<Grade>, number: string): set<Grade> {
    Where(grades, g => GradeNumber(g) == number)
  }

  ghost function Where(grades: set<Grade>, p: Grade -> bool): set<Grade> {
    set g | g in grades && p(g)
  }

  ghost function Candidates(grades: set<Grade>, number: string, producer: string): set<Grade> {
    Where(grades, g => GradeNumber(g) == number && SharesToken(g, producer))
  }

  ghost function MatchByScan(grades: set<Grade>, input: Input): MatchResult {
    var number := NormalizeMatchToken(input.grade);
    if number == "" then MatchResult(None, NoMatch)
    else Pick(Candidates(grades, number, input.producer), SameNumber(grades, number), input)
  }

  /** A number in front of the token's key can swallow this beginning of the token. */
  predicate Swallowable(front: string) {
    || front == "|"
    || (|front| >= 2 && front[|front| - 2..] == "||" && (|front| == 2 || front[|front| - 3] != ' '))
  }

  /** Something is left of the token that can be a token itself, or nothing is. */
  predicate CutBehind(t: string, k: nat, mayEnd: bool)
    requires k <= |t|
  {
    k >= 1 && Swallowable(t[..k]) && (if k == |t| then mayEnd else t[k] != ' ')
  }

  predicate Confusable(t: string, mayEnd: bool) {
    exists k :: 0 <= k <= |t| && CutBehind(t, k, mayEnd)
  }

  /** The condition on the producer of a document: no bars that a grade number could end with. */
  predicate SharpProducer(producer: string) {
    forall t :: t in ProducerAliasTokens(producer) ==> !Confusable(t, true)
  }

  /** The condition on a manufacturer: the same, except that a token may end behind two bars. */
  predicate SharpMaker(maker: string) {
    forall t :: t in ProducerAliasTokens(maker) ==> !Confusable(t, false)
  }

  ghost predicate SharpMakers(grades: seq<Grade>) {
    forall g :: g in grades ==> SharpMaker(g.manufacturer.GetOr(""))
  }

  /** Names without bars meet both conditions. */
  lemma BarFreeIsSharp(value: string)
    requires BarFree(value)
    ensures SharpProducer(value) && SharpMaker(value)
  {
    hide ProducerAliasTokens;
    TokensBarFree(value);
    forall t, mayEnd | t in ProducerAliasTokens(value) ensures !Confusable(t, mayEnd) {
      forall k | 0 <= k <= |t| ensures !CutBehind(t, k, mayEnd) {
        if 1 <= k {
          assert t[..k][k - 1] == t[k - 1] && BarFree(t);
        }
      }
    }
  }

  // ---- Index and scan agree -------------------------------------------------------------------

  predicate StartsVisibly(t: string) {
    t == "" || t[0] != ' '
  }

  /** Two bars and a token overlap with the end of a number, two bars and another token. */
  lemma Overlap(s: string, w: string, t: string, mayEnd: bool)
    requires w != "" && "||" + s == w + ("||" + t) && w[|w| - 1] != ' ' && StartsVisibly(t) && (t == "" ==> mayEnd)
    ensures Confusable(s, mayEnd)
  {
    var d := |w|;
    assert |s| == d + |t|;
    FrontOfOverlap(s, w, t);
    if d < |s| {
      assert s[d] == ("||" + s)[d + 2] == ("||" + t)[2] == t[0];
    }
    assert CutBehind(s, d, mayEnd);
  }

  lemma FrontOfOverlap(s: string, w: string, t: string)
    requires w != "" && "||" + s == w + ("||" + t) && |w| <= |s| && w[|w| - 1] != ' '
    ensures Swallowable(s[..|w|])
  {
    var x, d := "||" + s, |w|;
    assert x[d] == '|' && x[d + 1] == '|';
    assert s[d - 1] == x[d + 1];
    if d == 1 {
      assert s[..1] == "|";
    } else {
      assert s[d - 2] == x[d];
      assert s[..d][d - 2..] == "||";
      if d >= 3 {
        assert s[..d][d - 3] == s[d - 3] == x[d - 1] == w[d - 1];
      }
    }
  }

  /** Keys of different parts share the longer token's beginning with the longer number. */
  lemma LongerNumberSwallows(a: string, s: string, b: string, t: string)
    requires Key(a, s) == Key(b, t) && |a| < |b| && Neat(b) && StartsVisibly(t)
    ensures Confusable(s, t == "")
  {
    hide Confusable;
    var w, k := b[|a|..], Key(a, s);
    assert k[|a|..] == "||" + s;
    assert k == b + ("||" + t) && k[|a|..] == w + ("||" + t);
    NeatStart(b);
    assert w[|w| - 1] == b[|b| - 1];
    Overlap(s, w, t, t == "");
  }

  lemma SameLengthSameParts(a: string, s: string, b: string, t: string)
    requires Key(a, s) == Key(b, t) && |a| == |b|
    ensures a == b && s == t
  {
    var k, l := Key(a, s), Key(b, t);
    assert a == k[..|a|] && b == l[..|b|];
    assert s == k[|a| + 2..] && t == l[|b| + 2..];
  }

  lemma SharperIsSharp(t: string)
    requires !Confusable(t, true)
    ensures !Confusable(t, false)
  {
    forall k | 0 <= k <= |t| ensures !CutBehind(t, k, false) {
      assert !CutBehind(t, k, true);
    }
  }

  /** With sharp tokens the key says both its parts. */
  lemma KeyIsInjective(a: string, s: string, b: string, t: string)
    requires Neat(a) && Neat(b) && StartsVisibly(s) && StartsVisibly(t) && Key(a, s) == Key(b, t)
    requires !Confusable(s, t == "") && !Confusable(t, s == "")
    ensures a == b && s == t
  {
    hide *;
    if |a| < |b| {
      LongerNumberSwallows(a, s, b, t);
    } else if |b| < |a| {
      LongerNumberSwallows(b, t, a, s);
    } else {
      SameLengthSameParts(a, s, b, t);
    }
  }

  lemma TokensStartVisibly(value: string, t: string)
    requires t in ProducerAliasTokens(value)
    ensures StartsVisibly(t)
  {
    hide ProducerAliasTokens;
    TokensNeatOrAlias(value, t);
  }

  lemma {:induction false} IndexTokensAt(m: Lists, number: string, tokens: seq<string>, g: Grade, key: string)
    ensures var m' := IndexTokens(m, number, tokens, g);
            && (key in m' <==> key in m || exists t :: t in tokens && Key(number, t) == key)
            && ToSet(At(m', key)) == ToSet(At(m, key)) + if exists t :: t in tokens && Key(number, t) == key then {g} else {}
    decreases tokens
  {
    if tokens != [] {
      var m1 := Append(m, Key(number, tokens[0]), g);
      IndexTokensAt(m1, number, tokens[1..], g, key);
      assert forall t :: t in tokens <==> t == tokens[0] || t in tokens[1..];
      if key == Key(number, tokens[0]) {
        assert tokens[0] in tokens;
      }
    }
  }

  predicate LookedUp(number: string, token: string) {
    number != "" && Neat(number) && token != "" && StartsVisibly(token) && !Confusable(token, true)
  }

  lemma OwnKeyIsInjective(g: Grade, number: string, token: string, t: string)
    requires LookedUp(number, token) && SharpMaker(g.manufacturer.GetOr("")) && (t in GradeTokens(g) || t == "")
    requires Key(GradeNumber(g), t) == Key(number, token)
    ensures GradeNumber(g) == number && t == token
  {
    hide ProducerAliasTokens, Key, Neat, NormalizeMatchToken;
    NormalizedIsNeat(if g.gradeNo.GetOr("") == "" then g.name else g.gradeNo.value);
    if t != "" {
      TokensStartVisibly(g.manufacturer.GetOr(""), t);
      SharperIsSharp(token);
    }
    KeyIsInjective(GradeNumber(g), t, number, token);
  }

  // ---- What the maps hold, for any names ------------------------------------------------------

  /** One of the grade's tokens makes this key. */
  predicate FilesUnder(g: Grade, key: string) {
    GradeNumber(g) != "" && exists t :: t in GradeTokens(g) && Key(GradeNumber(g), t) == key
  }

  /** So does one of its tokens or its base name, which may be empty. */
  predicate Wants(g: Grade, key: string) {
    FilesUnder(g, key) || (GradeNumber(g) != "" && Key(GradeNumber(g), ProducerBaseName(g.manufacturer.GetOr(""))) == key)
  }

  ghost predicate Wanted(grades: seq<Grade>, key: string) {
    exists g :: g in grades && Wants(g, key)
  }

  ghost predicate FirstToWant(grades: seq<Grade>, key: string, g: Grade) {
    exists i :: 0 <= i < |grades| && grades[i] == g && Wants(g, key) && !Wanted(grades[..i], key)
  }

  /** A key lists the grades with a token for it and the first grade that wants it at all. */
  ghost predicate Indexed(grades: seq<Grade>, key: string, g: Grade) {
    g in grades && (FilesUnder(g, key) || FirstToWant(grades, key, g))
  }

  lemma OneMoreGrade(index: Index, g: Grade, key: string)
    ensures var m, m' := index.byGradeProducer, IndexGrade(index, g).byGradeProducer;
            && (key in m' <==> key in m || Wants(g, key))
            && ToSet(At(m', key)) == ToSet(At(m, key)) + if FilesUnder(g, key) || (Wants(g, key) && key !in m) then {g} else {}
  {
    hide GradeNumber, GradeTokens, Key, ProducerBaseName, NormalizeMatchToken;
    NumberIsNormal(g);
    if GradeNumber(g) != "" {
      IndexTokensAt(index.byGradeProducer, GradeNumber(g), GradeTokens(g), g, key);
    }
  }

  lemma OneMoreIndexed(grades: seq<Grade>, last: Grade, key: string, g: Grade)
    ensures Wanted(grades + [last], key) <==> Wanted(grades, key) || Wants(last, key)
    ensures Indexed(grades + [last], key, g) <==>
              Indexed(grades, key, g) || (g == last && (FilesUnder(g, key) || (Wants(g, key) && !Wanted(grades, key))))
  {
    hide Wants, FilesUnder;
    var more := grades + [last];
    assert last in more && forall x :: x in more <==> x in grades || x == last;
    assert more[..|grades|] == grades && more[|grades|] == last;
    assert forall i :: 0 <= i < |grades| ==> more[i] == grades[i] && more[..i] == grades[..i];
  }

  lemma {:induction false} IndexHolds(grades: seq<Grade>, key: string)
    ensures key in BuildIndex(grades).byGradeProducer <==> Wanted(grades, key)
    ensures forall g :: g in At(BuildIndex(grades).byGradeProducer, key) <==> Indexed(grades, key, g)
  {
    hide IndexGrade, FilesUnder, Wants, Wanted, FirstToWant, Indexed;
    if grades == [] {
      NothingIndexed(key);
    } else {
      var rest, last := grades[..|grades| - 1], grades[|grades| - 1];
      var m, m' := BuildIndex(rest).byGradeProducer, BuildIndex(grades).byGradeProducer;
      assert grades == rest + [last];
      IndexHolds(rest, key);
      OneMoreGrade(BuildIndex(rest), last, key);
      forall g ensures g in At(m', key) <==> Indexed(grades, key, g) {
        OneMoreIndexed(rest, last, key, g);
        assert g in At(m', key) <==> g in ToSet(At(m', key));
        assert g in At(m, key) <==> g in ToSet(At(m, key));
      }
      OneMoreIndexed(rest, last, key, last);
    }
  }

  lemma NothingIndexed(key: string)
    ensures !Wanted([], key) && forall g :: !Indexed([], key, g)
  {
  }

  ghost predicate Fits(g: Grade, number: string, producer: string) {
    GradeNumber(g) == number && SharesToken(g, producer)
  }

  /** The grades that a key of the producer lists although they have another number or no token of the producer's. */
  ghost function Misfiled(grades: seq<Grade>, number: string, producer: string): set<Grade> {
    set g | g in grades && !Fits(g, number, producer)
            && exists t :: t in ProducerAliasTokens(producer) && Indexed(grades, Key(number, t), g)
  }

  /** For all names and catalogues the maps find the grades of a scan and the misfiled ones. */
  lemma IndexFindsExactly(grades: seq<Grade>, number: string, producer: string)
    requires number != ""
    ensures Hits(BuildIndex(grades), number, ProducerAliasTokens(producer))
         == Candidates(ToSet(grades), number, producer) + Misfiled(grades, number, producer)
    ensures Candidates(ToSet(grades), number, producer) !! Misfiled(grades, number, producer)
  {
    hide GradeTokens, GradeNumber, ProducerAliasTokens, Key, BuildIndex, Wants, FirstToWant;
    var tokens, m := ProducerAliasTokens(producer), BuildIndex(grades).byGradeProducer;
    forall t ensures forall g :: g in At(m, Key(number, t)) <==> Indexed(grades, Key(number, t), g) {
      IndexHolds(grades, Key(number, t));
    }
    forall g, t | g in grades && GradeNumber(g) == number && t in tokens && t in GradeTokens(g)
      ensures Indexed(grades, Key(number, t), g)
    {
      assert FilesUnder(g, Key(number, t));
    }
  }

  lemma BaseNameOfTrimmed(value: string)
    ensures ProducerBaseName(Trim(value)) == ProducerBaseName(value)
  {
    var from := TrimIsSlice(value);
    TrimFixed(Trim(value));
  }

  lemma OnlyGradeAt(index: Index, g: Grade, number: string)
    requires number != ""
    ensures ToSet(At(IndexGrade(index, g).byGradeOnly, number))
         == ToSet(At(index.byGradeOnly, number)) + if GradeNumber(g) == number then {g} else {}
  {
  }

  lemma {:induction false} OnlyHolds(grades: seq<Grade>, number: string)
    requires number != ""
    ensures ToSet(At(BuildIndex(grades).byGradeOnly, number)) == SameNumber(ToSet(grades), number)
  {
    hide GradeNumber, IndexGrade;
    if grades != [] {
      var rest, last := grades[..|grades| - 1], grades[|grades| - 1];
      OnlyHolds(rest, number);
      OnlyGradeAt(BuildIndex(rest), last, number);
      assert forall g :: g in grades <==> g in rest || g == last;
    }
  }

  lemma SharpKeyFits(g: Grade, number: string, token: string)
    requires LookedUp(number, token) && SharpMaker(g.manufacturer.GetOr("")) && Wants(g, Key(number, token))
    ensures GradeNumber(g) == number && token in GradeTokens(g)
  {
    hide ProducerAliasTokens, Key, Neat, NormalizeMatchToken, GradeNumber, SharpMaker, ProducerBaseName, LookedUp;
    var maker := g.manufacturer.GetOr("");
    if FilesUnder(g, Key(number, token)) {
      var t :| t in GradeTokens(g) && Key(GradeNumber(g), t) == Key(number, token);
      OwnKeyIsInjective(g, number, token, t);
    } else {
      BaseNameOfTrimmed(maker);
      TokensHoldBase(maker);
      OwnKeyIsInjective(g, number, token, ProducerBaseName(maker));
      LookedUpIsSome(number, token);
    }
  }

  lemma LookedUpIsSome(number: string, token: string)
    requires LookedUp(number, token)
    ensures token != ""
  {
  }

  /**
   * For sharp names nothing is misfiled: the maps find exactly the grades that a scan finds, with
   * the same normalized grade number and a shared producer token.
   */
  lemma IndexFindsCandidates(grades: seq<Grade>, number: string, producer: string)
    requires number != "" && Neat(number) && SharpProducer(producer) && SharpMakers(grades)
    ensures Misfiled(grades, number, producer) == {}
    ensures Hits(BuildIndex(grades), number, ProducerAliasTokens(producer)) == Candidates(ToSet(grades), number, producer)
  {
    hide GradeTokens, GradeNumber, ProducerAliasTokens, Key, BuildIndex, Wants, Neat, SharpMaker, Confusable, StartsVisibly;
    IndexFindsExactly(grades, number, producer);
    TokensHoldBase(producer);
    forall g, t | g in grades && t in ProducerAliasTokens(producer) && Indexed(grades, Key(number, t), g)
      ensures Fits(g, number, producer)
    {
      TokensStartVisibly(producer, t);
      assert Wants(g, Key(number, t)) by { IndexedIsWanted(grades, Key(number, t), g); }
      SharpKeyFits(g, number, t);
    }
  }

  lemma IndexedIsWanted(grades: seq<Grade>, key: string, g: Grade)
    requires Indexed(grades, key, g)
    ensures Wants(g, key)
  {
    hide FilesUnder;
  }

  ghost predicate Several(s: set<Grade>) {
    exists a, b :: a in s && b in s && a != b
  }

  /** Adding the misfiled grades to the candidates does not change the pick. */
  ghost predicate Tolerated(candidates: set<Grade>, misfiled: set<Grade>, category: string) {
    var fitting, strays := Fitting(candidates, category), Fitting(misfiled, category);
    || misfiled == {}
    || Several(fitting)
    || (fitting != {} && strays == {})
    || (Several(candidates) && fitting == {} && (strays == {} || Several(strays)))
  }

  lemma OneOrSeveral(s: set<Grade>)
    ensures (exists g :: Only(s, g)) <==> s != {} && !Several(s)
  {
    if s != {} && !Several(s) {
      var g :| g in s;
      assert s == {g};
      assert Only(s, g);
    }
  }

  lemma PickTolerates(candidates: set<Grade>, misfiled: set<Grade>, sameNumber: set<Grade>, input: Input)
    requires candidates !! misfiled
    ensures Pick(candidates + misfiled, sameNumber, input) == Pick(candidates, sameNumber, input)
       <==> Tolerated(candidates, misfiled, input.category)
  {
    hide CategoryCompatible;
    var all := candidates + misfiled;
    var fitting, strays := Fitting(candidates, input.category), Fitting(misfiled, input.category);
    assert Fitting(all, input.category) == fitting + strays;
    OneOrSeveral(candidates);
    OneOrSeveral(fitting);
    OneOrSeveral(strays);
    OneOrSeveral(all);
    OneOrSeveral(fitting + strays);
  }

  /**
   * For every catalogue and every input, index and scan agree exactly when no grade is misfiled,
   * or when those that are cannot change the pick: several candidates fit the category anyway,
   * only candidates fit it, or none does and the misfiled ones do not single out one grade.
   */
  lemma IndexAgreesExactlyWhen(grades: seq<Grade>, input: Input)
    ensures var number := NormalizeMatchToken(input.grade);
            MatchFromIndex(BuildIndex(grades), input) == MatchByScan(ToSet(grades), input) <==>
              number == ""
              || Tolerated(Candidates(ToSet(grades), number, input.producer), Misfiled(grades, number, input.producer), input.category)
  {
    hide Hits, Candidates, Misfiled, Tolerated, Pick, BuildIndex, NormalizeMatchToken, ProducerAliasTokens, SameNumber;
    var number := NormalizeMatchToken(input.grade);
    if number != "" {
      IndexFindsExactly(grades, number, input.producer);
      OnlyHolds(grades, number);
      PickTolerates(Candidates(ToSet(grades), number, input.producer), Misfiled(grades, number, input.producer),
                    SameNumber(ToSet(grades), number), input);
    }
  }

  /** With sharp names, matching through the index is matching by a scan over the set of grades. */
  lemma IndexAgreesWithScan(grades: seq<Grade>, input: Input)
    requires SharpProducer(input.producer) && SharpMakers(grades)
    ensures MatchFromIndex(BuildIndex(grades), input) == MatchByScan(ToSet(grades), input)
  {
    var number := NormalizeMatchToken(input.grade);
    NormalizedIsNeat(input.grade);
    if number != "" {
      IndexFindsCandidates(grades, number, input.producer);
      OnlyHolds(grades, number);
    }
  }

  lemma LoneGradeIsIndexed(g: Grade, token: string)
    requires GradeNumber(g) != "" && token in GradeTokens(g)
    ensures g in At(BuildIndex([g]).byGradeProducer, Key(GradeNumber(g), token))
  {
    var key := Key(GradeNumber(g), token);
    IndexTokensAt(map[], GradeNumber(g), GradeTokens(g), g, key);
    assert [g][..0] == [];
    assert BuildIndex([g]) == IndexGrade(Index(map[], map[]), g);
    assert g in ToSet(At(IndexTokens(map[], GradeNumber(g), GradeTokens(g), g), key));
  }

  lemma LoneCandidateIsPicked(g: Grade, sameNumber: set<Grade>, input: Input)
    ensures Pick({g}, sameNumber, input).gradeId == Some(g.id)
  {
    hide CategoryCompatible;
    var fitting := Fitting({g}, input.category);
    if CategoryCompatible(g, input.category) {
      assert fitting == {g};
      assert Only(fitting, g);
    } else {
      assert fitting == {};
      assert Only({g}, g);
    }
  }

  lemma LoneGradeIsHit(g: Grade, number: string, tokens: seq<string>, token: string)
    requires token in tokens && g in At(BuildIndex([g]).byGradeProducer, Key(number, token))
    ensures Hits(BuildIndex([g]), number, tokens) == {g}
  {
    var index := BuildIndex([g]);
    forall t, h | t in tokens && h in At(index.byGradeProducer, Key(number, t)) ensures h == g {
      IndexedAreGrades([g], Key(number, t));
    }
  }

  lemma LoneGradeIsNotScanned(g: Grade, input: Input)
    requires GradeNumber(g) != NormalizeMatchToken(input.grade)
    ensures MatchByScan(ToSet([g]), input).gradeId == None
  {
    var number := NormalizeMatchToken(input.grade);
    assert Candidates(ToSet([g]), number, input.producer) == {} && SameNumber(ToSet([g]), number) == {};
  }

  /** The index hands out a grade whose number is another one. */
  ghost predicate Confuses(g: Grade, input: Input) {
    MatchFromIndex(BuildIndex([g]), input).gradeId == Some(g.id) && MatchByScan(ToSet([g]), input).gradeId == None
  }

  lemma SharedKeyConfuses(g: Grade, input: Input, entry: string, token: string)
    requires GradeNumber(g) != "" && g in At(BuildIndex([g]).byGradeProducer, Key(GradeNumber(g), entry))
    requires token in ProducerAliasTokens(input.producer)
    requires NormalizeMatchToken(input.grade) !in {"", GradeNumber(g)}
    requires Key(GradeNumber(g), entry) == Key(NormalizeMatchToken(input.grade), token)
    ensures Confuses(g, input)
  {
    hide ProducerAliasTokens, NormalizeMatchToken, GradeNumber, BuildIndex, Key;
    var number := NormalizeMatchToken(input.grade);
    LoneGradeIsHit(g, number, ProducerAliasTokens(input.producer), token);
    LoneCandidateIsPicked(g, ToSet(At(BuildIndex([g]).byGradeOnly, number)), input);
    LoneGradeIsNotScanned(g, input);
  }

  /** The number that swallows the first `k` characters of a token behind number `n`. */
  function Swallowing(n: string, t: string, k: nat): string
    requires k <= |t|
  {
    n + ("||" + t)[..k]
  }

  lemma FrontEndsInBar(t: string, k: nat)
    requires 1 <= k <= |t| && Swallowable(t[..k])
    ensures t[k - 1] == '|' && (k >= 2 ==> t[k - 2] == '|') && (k >= 3 ==> t[k - 3] != ' ')
  {
    var front := t[..k];
    if k >= 2 {
      assert front[k - 2..][0] == '|' && front[k - 2..][1] == '|';
    }
  }

  /** The key of number and token is the key of the swallowing number and what is left. */
  lemma SwallowedKey(n: string, t: string, k: nat, mayEnd: bool)
    requires k <= |t| && CutBehind(t, k, mayEnd)
    ensures Key(n, t) == Key(Swallowing(n, t, k), t[k..])
    ensures Swallowing(n, t, k) !in {"", n}
  {
    hide Swallowable;
    FrontEndsInBar(t, k);
    var bars := "||" + t;
    assert Key(n, t) == n + bars && bars == bars[..k] + bars[k..];
    assert bars[k..] == "||" + t[k..];
  }

  lemma SwallowedIsNeat(n: string, t: string, k: nat, mayEnd: bool)
    requires n != "" && Neat(n) && Neat(t) && k <= |t| && CutBehind(t, k, mayEnd)
    ensures Neat(Swallowing(n, t, k)) && (t[k..] != "" ==> Neat(t[k..]))
  {
    hide Neat, Swallowable;
    var whole, j := Key(n, t), |n| + k;
    NeatKey(n, t);
    FrontEndsInBar(t, k);
    assert Swallowing(n, t, k) == whole[0..j];
    assert whole[j - 1] != ' ' && whole[0] == n[0] != ' ' by {
      NeatStart(n);
      assert k >= 3 ==> whole[j - 1] == t[k - 3];
    }
    NeatSlice(whole, 0, j);
    if k < |t| {
      assert t[|t| - 1] != ' ' by { NeatStart(t); }
      NeatSlice(t, k, |t|);
      assert t[k..|t|] == t[k..];
    } else {
      assert t[k..] == "";
    }
  }

  lemma NeatStart(s: string)
    requires s != "" && Neat(s)
    ensures s[0] != ' ' && s[|s| - 1] != ' '
  {
  }

  lemma NeatKey(n: string, t: string)
    requires n != "" && Neat(n) && t != "" && Neat(t)
    ensures Neat(Key(n, t))
  {
    var k := Key(n, t);
    assert k[|n|] == '|' && k[|n| + 1] == '|';
    assert forall i :: |n| + 2 <= i < |k| ==> k[i] == t[i - |n| - 2];
    assert forall i :: 0 <= i < |n| ==> k[i] == n[i];
  }

  lemma ConfusableIsNeat(value: string, t: string, mayEnd: bool)
    requires t in ProducerAliasTokens(value) && Confusable(t, mayEnd)
    ensures Neat(t)
  {
    hide ProducerAliasTokens, Neat;
    TokensNeatOrAlias(value, t);
    var k :| 0 <= k <= |t| && CutBehind(t, k, mayEnd);
    assert t[..k][k - 1] == '|' && t[k - 1] == '|';
  }

  lemma BlankMakerIsIndexed(g: Grade)
    requires g.manufacturer.None? && GradeNumber(g) != ""
    ensures g in At(BuildIndex([g]).byGradeProducer, Key(GradeNumber(g), ""))
  {
    hide GradeNumber, NormalizeMatchToken, ProducerAliasTokens;
    BlankHasNoTokens("");
    BlankBase();
    assert [g][..0] == [];
    assert BuildIndex([g]) == IndexGrade(Index(map[], map[]), g);
    NumberIsNormal(g);
  }

  lemma NumberIsNormal(g: Grade)
    ensures NormalizeMatchToken(GradeNumber(g)) == GradeNumber(g)
  {
    NormalizeIsIdempotent(if g.gradeNo.GetOr("") == "" then g.name else g.gradeNo.value);
  }

  lemma BlankBase()
    ensures ProducerBaseName("") == ""
  {
    NeatIsFixed("");
  }

  function GradeOf(number: string, maker: string): Grade {
    Grade(0, number, None, None, if maker == "" then None else Some(maker), None, None)
  }

  lemma NumberOfGrade(number: string, maker: string)
    requires Neat(number)
    ensures GradeNumber(GradeOf(number, maker)) == number
  {
    NeatIsFixed(number);
  }

  /**
   * The condition on producers is needed: for every producer that is not sharp and every number
   * there is a catalogue of one grade, with another number, that the index hands out.
   */
  lemma BluntProducerIsConfused(category: string, number: string, producer: string) returns (g: Grade)
    requires !SharpProducer(producer) && number != "" && Neat(number)
    ensures Confuses(g, Input(category, number, producer))
  {
    hide ProducerAliasTokens, Neat, NormalizeMatchToken, CutBehind, GradeNumber, BuildIndex, GradeTokens, Confuses, Key;
    var t :| t in ProducerAliasTokens(producer) && Confusable(t, true);
    ConfusableIsNeat(producer, t, true);
    var k :| 0 <= k <= |t| && CutBehind(t, k, true);
    SwallowedKey(number, t, k, true);
    SwallowedIsNeat(number, t, k, true);
    var m, rest := Swallowing(number, t, k), t[k..];
    g := GradeOf(m, rest);
    NumberOfGrade(m, rest);
    NeatIsFixed(number);
    if rest == "" {
      BlankMakerIsIndexed(g);
    } else {
      NeatTokenIsOwn(rest);
      assert rest in GradeTokens(g) by { OwnGradeToken(m, rest); }
      LoneGradeIsIndexed(g, rest);
    }
    SharedKeyConfuses(g, Input(category, number, producer), rest, t);
  }

  lemma OwnGradeToken(number: string, maker: string)
    requires maker != "" && maker in ProducerAliasTokens(maker)
    ensures maker in GradeTokens(GradeOf(number, maker))
  {
  }

  /**
   * So is the condition on manufacturers: every grade of a manufacturer that is not sharp is
   * handed out for some producer under another number.
   */
  lemma BluntMakerConfuses(category: string, number: string, maker: string) returns (input: Input)
    requires !SharpMaker(maker) && number != "" && Neat(number) && maker != ""
    ensures Confuses(GradeOf(number, maker), input)
  {
    hide ProducerAliasTokens, Neat, NormalizeMatchToken, CutBehind, GradeNumber, BuildIndex, Confuses, Key;
    var t :| t in ProducerAliasTokens(maker) && Confusable(t, false);
    ConfusableIsNeat(maker, t, false);
    var k :| 0 <= k <= |t| && CutBehind(t, k, false);
    assert k < |t| by { CutLeavesRest(t, k); }
    SwallowedKey(number, t, k, false);
    SwallowedIsNeat(number, t, k, false);
    var m, rest := Swallowing(number, t, k), t[k..];
    input := Input(category, m, rest);
    NumberOfGrade(number, maker);
    NeatIsFixed(m);
    NeatTokenIsOwn(rest);
    LoneGradeIsIndexed(GradeOf(number, maker), t);
    SharedKeyConfuses(GradeOf(number, maker), input, t, rest);
  }

  lemma CutLeavesRest(t: string, k: nat)
    requires k <= |t| && CutBehind(t, k, false)
    ensures k < |t|
  {
  }

  // ---- Stability ------------------------------------------------------------------------------

  /** Reordering the grades never changes the answer. */
  lemma OrderIsIrrelevant(grades: seq<Grade>, permuted: seq<Grade>, input: Input)
    requires SharpProducer(input.producer) && SharpMakers(grades)
    requires multiset(grades) == multiset(permuted)
    ensures MatchFromIndex(BuildIndex(grades), input) == MatchFromIndex(BuildIndex(permuted), input)
  {
    assert forall g :: g in grades <==> g in multiset(grades);
    assert forall g :: g in permuted <==> g in multiset(permuted);
    IndexAgreesWithScan(grades, input);
    IndexAgreesWithScan(permuted, input);
    assert ToSet(grades) == ToSet(permuted);
  }

  lemma OneMore(s: set<Grade>, s': set<Grade>, g: Grade)
    requires g !in s && (s' == s || s' == s + {g})
    ensures s' != s && s == {} ==> Only(s', g)
    ensures forall x :: Only(s', x) ==> (s == {} && x == g) || (s == s' && Only(s, x))
    ensures (exists x :: Only(s, x)) && s' != s ==> !exists x :: Only(s', x)
  {
    forall x | Only(s', x) ensures (s == {} && x == g) || (s == s' && Only(s, x)) {
      assert x in s';
      if s' != s {
        assert g in s';
        assert forall y :: y in s ==> y in s';
      }
    }
    if x :| Only(s, x) && s' != s {
      assert x in s && x in s' && g in s';
    }
  }

  lemma PickAmongMore(c: set<Grade>, n: set<Grade>, n': set<Grade>, g: Grade, input: Input)
    requires g !in c && c != {}
    ensures var before, after := Pick(c, n, input).gradeId, Pick(c + {g}, n', input).gradeId;
            after == before || after == None || after == Some(g.id)
  {
    hide CategoryCompatible;
    var f, f' := Fitting(c, input.category), Fitting(c + {g}, input.category);
    assert f' == if CategoryCompatible(g, input.category) then f + {g} else f;
    OneMore(c, c + {g}, g);
    OneMore(f, f', g);
  }

  /** Adding a grade changes the picked grade only to none or to the added one. */
  lemma PickAfterAdding(c: set<Grade>, c': set<Grade>, n: set<Grade>, n': set<Grade>, g: Grade, input: Input)
    requires g !in c && g !in n && (c' == c || c' == c + {g}) && (n' == n || n' == n + {g})
    ensures var before, after := Pick(c, n, input).gradeId, Pick(c', n', input).gradeId;
            after == before || after == None || after == Some(g.id)
  {
    if c' == c {
      OneMore(n, n', g);
    } else if c == {} {
      assert c' == {g};
      LoneCandidateIsPicked(g, n', input);
    } else {
      PickAmongMore(c, n, n', g, input);
    }
  }

  lemma InCandidates(grades: set<Grade>, number: string, producer: string)
    ensures forall g :: g in Candidates(grades, number, producer) <==>
              g in grades && GradeNumber(g) == number && SharesToken(g, producer)
  {
  }

  lemma WhereAfterAdding(s: set<Grade>, g: Grade, p: Grade -> bool)
    ensures Where(s + {g}, p) == if p(g) then Where(s, p) + {g} else Where(s, p)
  {
  }

  lemma ScanAfterAdding(s: set<Grade>, g: Grade, input: Input)
    requires g !in s
    ensures var before, after := MatchByScan(s, input).gradeId, MatchByScan(s + {g}, input).gradeId;
            after == before || after == None || after == Some(g.id)
  {
    var number := NormalizeMatchToken(input.grade);
    WhereAfterAdding(s, g, x => GradeNumber(x) == number && SharesToken(x, input.producer));
    WhereAfterAdding(s, g, x => GradeNumber(x) == number);
    PickAfterAdding(Candidates(s, number, input.producer), Candidates(s + {g}, number, input.producer),
                    SameNumber(s, number), SameNumber(s + {g}, number), g, input);
  }

  /**
   * A new grade never steals a match for a third one: the answer stays, becomes none, or
   * becomes the new grade.
   */
  lemma AddingOneGrade(grades: seq<Grade>, g: Grade, input: Input)
    requires SharpProducer(input.producer) && SharpMakers(grades + [g])
    requires forall x :: x in grades ==> x.id != g.id
    ensures var before := MatchFromIndex(BuildIndex(grades), input).gradeId;
            var after := MatchFromIndex(BuildIndex(grades + [g]), input).gradeId;
            after == before || after == None || after == Some(g.id)
  {
    assert forall x :: x in grades ==> x in grades + [g];
    IndexAgreesWithScan(grades, input);
    IndexAgreesWithScan(grades + [g], input);
    assert ToSet(grades + [g]) == ToSet(grades) + {g};
    ScanAfterAdding(ToSet(grades), g, input);
  }

  // ---- What an answer means -----------------------------------------------------------------------

  /** A grade comes with a positive confidence, and none with "ambiguous" or "none". */
  lemma GradeExactlyWithConfidence(index: Index, input: Input)
    ensures var r := MatchFromIndex(index, input); r.gradeId.Some? <==> r.confidence != Ambiguous && r.confidence != NoMatch
  {
  }

  /** The weak answer is given exactly for a blank producer and a number that one grade has. */
  lemma WeakExactlyWhen(grades: seq<Grade>, input: Input)
    ensures var number := NormalizeMatchToken(input.grade);
            MatchFromIndex(BuildIndex(grades), input).confidence == Weak <==>
              Trim(input.producer) == "" && number != "" && exists g :: Only(SameNumber(ToSet(grades), number), g)
  {
    hide ProducerAliasTokens, NormalizeMatchToken, BuildIndex, SameNumber, CategoryCompatible;
    var number := NormalizeMatchToken(input.grade);
    if number != "" {
      OnlyHolds(grades, number);
      if Trim(input.producer) == "" {
        BlankHasNoTokens(input.producer);
        assert Hits(BuildIndex(grades), number, ProducerAliasTokens(input.producer)) == {};
      }
    }
  }

  /** The grade picked from candidates, with no rival that fits the category as well. */
  lemma PickedIsUnique(c: set<Grade>, n: set<Grade>, input: Input) returns (g: Grade)
    requires Trim(input.producer) != "" && Pick(c, n, input).gradeId.Some?
    ensures g in c && Pick(c, n, input).gradeId == Some(g.id)
    ensures forall x :: x in c && (CategoryCompatible(x, input.category) || !CategoryCompatible(g, input.category)) ==> x == g
  {
    var f := Fitting(c, input.category);
    g := if exists x :: Only(f, x) then TheOne(f) else TheOne(c);
    assert f == {g} ==> g in f;
    forall x | x in c && (CategoryCompatible(x, input.category) || !CategoryCompatible(g, input.category)) ensures x == g {
      assert CategoryCompatible(x, input.category) ==> x in f;
    }
  }

  /**
   * With a non-blank producer, the returned grade has the input's number and shares a token
   * with it, and no other such grade fits the category as well as it does.
   */
  lemma ReturnedGradeIsUnique(grades: seq<Grade>, input: Input) returns (g: Grade)
    requires SharpProducer(input.producer) && SharpMakers(grades) && Trim(input.producer) != ""
    requires MatchFromIndex(BuildIndex(grades), input).gradeId.Some?
    ensures var number := NormalizeMatchToken(input.grade);
            && g in grades && MatchFromIndex(BuildIndex(grades), input).gradeId == Some(g.id)
            && GradeNumber(g) == number && SharesToken(g, input.producer)
            && forall x :: (
                 && x in grades && GradeNumber(x) == number && SharesToken(x, input.producer)
                 && (CategoryCompatible(x, input.category) || !CategoryCompatible(g, input.category))
               ) ==> x == g
  {
    IndexAgreesWithScan(grades, input);
    var number := NormalizeMatchToken(input.grade);
    var c, n := Candidates(ToSet(grades), number, input.producer), SameNumber(ToSet(grades), number);
    g := PickedIsUnique(c, n, input);
    InCandidates(ToSet(grades), number, input.producer);
  }

  // ---- As it runs -----------------------------------------------------------------------------------

  method IndexUnderTokens(m: Lists, number: string, tokens: seq<string>, g: Grade) returns (r: Lists)
    ensures r == IndexTokens(m, number, tokens, g)
  {
    r := m;
    for t := 0 to |tokens|
      invariant IndexTokens(r, number, tokens[t..], g) == IndexTokens(m, number, tokens, g)
    {
      assert tokens[t..][1..] == tokens[t + 1..];
      r := Append(r, Key(number, tokens[t]), g);
    }
  }

  method IndexOne(index: Index, g: Grade) returns (r: Index)
    ensures r == IndexGrade(index, g)
  {
    var number := GradeNumber(g);
    if number == "" {
      return index;
    }
    var only := Append(index.byGradeOnly, number, g);
    var tokens := CollectTokens(g.manufacturer.GetOr(""));
    var byToken := IndexUnderTokens(index.byGradeProducer, number, tokens, g);
    var baseKey := Key(NormalizeMatchToken(number), ProducerBaseName(g.manufacturer.GetOr("")));
    if baseKey !in byToken {
      byToken := byToken[baseKey := [g]];
    }
    return Index(byToken, only);
  }

  method LoadGradeMatchIndex(all: seq<Grade>) returns (index: Index)
    ensures index == BuildIndex(all)
  {
    index := Index(map[], map[]);
    for i := 0 to |all|
      invariant index == BuildIndex(all[..i])
    {
      assert all[..i + 1][..i] == all[..i];
      index := IndexOne(index, all[i]);
    }
    assert all[..|all|] == all;
  }

  ghost predicate DistinctIds(grades: seq<Grade>) {
    forall i, j :: 0 <= i < j < |grades| ==> grades[i].id != grades[j].id
  }

  lemma SameIdSameGrade(grades: seq<Grade>, g: Grade, h: Grade)
    requires DistinctIds(grades) && g in grades && h in grades && g.id == h.id
    ensures g == h
  {
  }

  lemma IndexedIsOldOrNew(index: Index, g: Grade, key: string)
    ensures forall x :: x in At(IndexGrade(index, g).byGradeProducer, key) ==> x in At(index.byGradeProducer, key) || x == g
  {
    hide GradeTokens, GradeNumber, ProducerBaseName, NormalizeMatchToken, Key;
    var m := index.byGradeProducer;
    var m' := IndexTokens(m, GradeNumber(g), GradeTokens(g), g);
    IndexTokensAt(m, GradeNumber(g), GradeTokens(g), g, key);
    forall x | x in At(m', key) ensures x in At(m, key) || x == g {
      assert x in ToSet(At(m', key));
    }
  }

  lemma {:induction false} IndexedAreGrades(grades: seq<Grade>, key: string)
    ensures AllIn(At(BuildIndex(grades).byGradeProducer, key), grades)
  {
    if grades != [] {
      var rest, last := grades[..|grades| - 1], grades[|grades| - 1];
      IndexedAreGrades(rest, key);
      IndexedIsOldOrNew(BuildIndex(rest), last, key);
    }
  }

  lemma NumberListStep(index: Index, g: Grade, number: string)
    ensures At(IndexGrade(index, g).byGradeOnly, number)
         == At(index.byGradeOnly, number) + if number != "" && GradeNumber(g) == number then [g] else []
  {
  }

  lemma {:induction false} NumberListDistinct(grades: seq<Grade>, number: string)
    requires DistinctIds(grades)
    ensures DistinctIds(At(BuildIndex(grades).byGradeOnly, number))
    ensures forall g :: g in At(BuildIndex(grades).byGradeOnly, number) ==> g in grades
  {
    hide GradeNumber, IndexGrade;
    if grades != [] {
      var rest, last := grades[..|grades| - 1], grades[|grades| - 1];
      NumberListDistinct(rest, number);
      NumberListStep(BuildIndex(rest), last, number);
      assert forall g :: g in rest ==> g.id != last.id;
    }
  }

  lemma SingleExactly(s: seq<Grade>)
    requires DistinctIds(s)
    ensures |s| == 1 <==> exists g :: Only(ToSet(s), g)
    ensures |s| == 1 ==> Only(ToSet(s), s[0])
    ensures s == [] <==> ToSet(s) == {}
  {
    if |s| == 1 {
      assert ToSet(s) == {s[0]};
      assert Only(ToSet(s), s[0]);
    } else if |s| > 1 {
      assert s[0] in ToSet(s) && s[1] in ToSet(s) && s[0].id != s[1].id;
    }
  }

  /** The case split over the collected hits. */
  method Decide(candidates: seq<Grade>, gradeOnly: seq<Grade>, input: Input) returns (r: MatchResult)
    requires DistinctIds(candidates) && DistinctIds(gradeOnly)
    ensures r == Pick(ToSet(candidates), ToSet(gradeOnly), input)
  {
    SingleExactly(candidates);
    SingleExactly(gradeOnly);
    if |candidates| == 0 {
      if |gradeOnly| == 1 && Trim(input.producer) == "" {
        return MatchResult(Some(gradeOnly[0].id), Weak);
      }
      return MatchResult(None, NoMatch);
    }
    var withCategory := FilterCategory(candidates, input.category);
    SingleExactly(withCategory);
    if |withCategory| == 1 {
      return MatchResult(Some(withCategory[0].id), Exact);
    }
    if |withCategory| > 1 {
      return MatchResult(None, Ambiguous);
    }
    if |candidates| == 1 {
      return MatchResult(Some(candidates[0].id), Strong);
    }
    return MatchResult(None, Ambiguous);
  }

  /** Collects the hits of every token, one entry per grade id, then decides. */
  method MatchGradeFromIndex(index: Index, input: Input, ghost grades: seq<Grade>) returns (r: MatchResult)
    requires DistinctIds(grades) && index == BuildIndex(grades)
    ensures r == MatchFromIndex(index, input)
  {
    var number := NormalizeMatchToken(input.grade);
    if number == "" {
      return MatchResult(None, NoMatch);
    }
    var tokens := CollectTokens(input.producer);
    var candidates := CollectHits(index, number, tokens, grades);
    NumberListDistinct(grades, number);
    r := Decide(candidates, At(index.byGradeOnly, number), input);
  }

  method FilterCategory(candidates: seq<Grade>, category: string) returns (r: seq<Grade>)
    requires DistinctIds(candidates)
    ensures DistinctIds(r) && ToSet(r) == Fitting(ToSet(candidates), category)
  {
    r := [];
    for i := 0 to |candidates|
      invariant DistinctIds(r)
      invariant forall g :: g in r <==> g in candidates[..i] && CategoryCompatible(g, category)
    {
      assert candidates[..i + 1] == candidates[..i] + [candidates[i]];
      assert forall g :: g in candidates[..i] ==> g.id != candidates[i].id;
      if CategoryCompatible(candidates[i], category) {
        r := r + [candidates[i]];
      }
    }
    assert candidates[..|candidates|] == candidates;
  }

  lemma HitsNext(index: Index, number: string, tokens: seq<string>, i: nat)
    requires i < |tokens|
    ensures Hits(index, number, tokens[..i + 1])
         == Hits(index, number, tokens[..i]) + ToSet(At(index.byGradeProducer, Key(number, tokens[i])))
  {
    var front, longer := tokens[..i], tokens[..i + 1];
    assert forall t :: t in longer <==> t in front || t == tokens[i];
  }

  ghost predicate SeenAre(seen: set<nat>, hits: seq<Grade>) {
    forall id :: id in seen <==> exists g :: g in hits && g.id == id
  }

  ghost predicate AllIn(hits: seq<Grade>, grades: seq<Grade>) {
    forall g :: g in hits ==> g in grades
  }

  method CollectHits(index: Index, number: string, tokens: seq<string>, ghost grades: seq<Grade>) returns (hits: seq<Grade>)
    requires DistinctIds(grades) && index == BuildIndex(grades)
    ensures DistinctIds(hits) && ToSet(hits) == Hits(index, number, tokens)
  {
    hits := [];
    var seen: set<nat> := {};
    for i := 0 to |tokens|
      invariant DistinctIds(hits) && AllIn(hits, grades) && SeenAre(seen, hits)
      invariant ToSet(hits) == Hits(index, number, tokens[..i])
    {
      var list := At(index.byGradeProducer, Key(number, tokens[i]));
      IndexedAreGrades(grades, Key(number, tokens[i]));
      HitsNext(index, number, tokens, i);
      hits, seen := AddHits(hits, seen, list, grades);
    }
    assert tokens[..|tokens|] == tokens;
  }

  method AddHits(hits: seq<Grade>, seen: set<nat>, list: seq<Grade>, ghost grades: seq<Grade>)
      returns (hits': seq<Grade>, seen': set<nat>)
    requires DistinctIds(grades) && DistinctIds(hits)
    requires AllIn(hits, grades) && AllIn(list, grades) && SeenAre(seen, hits)
    ensures DistinctIds(hits') && AllIn(hits', grades) && SeenAre(seen', hits')
    ensures ToSet(hits') == ToSet(hits) + ToSet(list)
  {
    hits', seen' := hits, seen;
    for i := 0 to |list|
      invariant DistinctIds(hits')
      invariant forall g :: g in hits' <==> g in hits || g in list[..i]
      invariant SeenAre(seen', hits')
    {
      assert list[..i + 1] == list[..i] + [list[i]];
      if list[i].id !in seen' {
        hits', seen' := hits' + [list[i]], seen' + {list[i].id};
      } else {
        ghost var g :| g in hits' && g.id == list[i].id;
        SameIdSameGrade(grades, g, list[i]);
      }
    }
    assert list[..|list|] == list;
  }
}
