/**
 * Storage object keys of the TDS library: sanitized segments joined as
 * `tds/{category}/{grade}/{producer}/v{revision}/{filename}`, and the parser that reads them back.
 */
module ObjectKeys {
  import opened Prelude
  import opened Text

  const MAX_SEGMENT: nat := 120

  predicate IsUnderscore(c: char) { c == '_' }

  predicate IsObjectChar(c: char) {
    IsLower(c) || IsUpper(c) || IsDigit(c) || c == '.' || c == '_' || c == '-'
  }

  predicate NotObjectChar(c: char) { !IsObjectChar(c) }

  function StripStart(s: string): string {
    if s != "" && s[0] == '_' then StripStart(s[1..]) else s
  }

  function StripEnd(s: string): string {
    if s != "" && s[|s| - 1] == '_' then StripEnd(s[..|s| - 1]) else s
  }

  /** The segment before it is cut to length. */
  function Whole(value: string): string {
    StripEnd(StripStart(ReplaceRuns(ReplaceRuns(Trim(value), NotObjectChar, '_'), IsUnderscore, '_')))
  }

  function Cut(s: string): string {
    if |s| > MAX_SEGMENT then s[..MAX_SEGMENT] else s
  }

  function Sanitize(value: string, fallback: string): string {
    var safe := Cut(Whole(value));
    if safe == "" then fallback else safe
  }

  /** Object characters only, no two underscores in a row and none at either end. */
  predicate Clean(s: string) {
    && (forall i :: 0 <= i < |s| ==> IsObjectChar(s[i]))
    && NoRuns(s, IsUnderscore)
    && (s != "" ==> s[0] != '_' && s[|s| - 1] != '_')
  }

  predicate GoodFallback(f: string) {
    f != "" && |f| <= MAX_SEGMENT && Clean(f)
  }

  /** The cut falls just behind an underscore. */
  predicate CutAtUnderscore(value: string) {
    |Whole(value)| > MAX_SEGMENT && Whole(value)[MAX_SEGMENT - 1] == '_'
  }

  lemma {:induction false} StripStartIsSuffix(s: string) returns (from: nat)
    ensures from <= |s| && StripStart(s) == s[from..] && (from < |s| ==> s[from] != '_')
  {
    if s != "" && s[0] == '_' {
      var rest := StripStartIsSuffix(s[1..]);
      from := rest + 1;
    } else {
      from := 0;
    }
  }

  lemma {:induction false} StripEndIsPrefix(s: string)
    ensures StripEnd(s) <= s && (StripEnd(s) != "" ==> StripEnd(s)[|StripEnd(s)| - 1] != '_')
    ensures s != "" && s[0] != '_' ==> StripEnd(s) != ""
  {
    if s != "" && s[|s| - 1] == '_' {
      StripEndIsPrefix(s[..|s| - 1]);
    }
  }

  lemma WholeIsClean(value: string)
    ensures Clean(Whole(value))
  {
    hide ReplaceRuns, StripStart, StripEnd;
    var a := ReplaceRuns(Trim(value), NotObjectChar, '_');
    var b := ReplaceRuns(a, IsUnderscore, '_');
    ReplaceRunsShape(Trim(value), NotObjectChar, '_');
    ReplaceRunsShape(a, IsUnderscore, '_');
    var from := StripStartIsSuffix(b);
    StripEndIsPrefix(StripStart(b));
  }

  /** Sanitizing changes nothing but a trailing underscore in a string of single-underscore shape. */
  lemma WholeOfNearlyClean(s: string)
    requires s != "" && s[0] != '_' && NoRuns(s, IsUnderscore) && forall i :: 0 <= i < |s| ==> IsObjectChar(s[i])
    ensures Whole(s) == if s[|s| - 1] == '_' then s[..|s| - 1] else s
  {
    TrimFixed(s);
    ReplaceRunsFixed(s, NotObjectChar, '_');
    ReplaceRunsFixed(s, IsUnderscore, '_');
    assert StripStart(s) == s;
    if s[|s| - 1] == '_' {
      assert IsUnderscore(s[|s| - 1]) && !IsUnderscore(s[|s| - 2]);
      assert StripEnd(s[..|s| - 1]) == s[..|s| - 1];
    }
  }

  /** What one pass returns, as a segment: never empty, short, object characters only. */
  lemma SegmentShape(value: string, fallback: string)
    requires GoodFallback(fallback)
    ensures var r := Sanitize(value, fallback);
            && r != "" && |r| <= MAX_SEGMENT && r[0] != '_' && NoRuns(r, IsUnderscore)
            && (forall i :: 0 <= i < |r| ==> IsObjectChar(r[i]))
            && (r[|r| - 1] == '_' <==> CutAtUnderscore(value))
  {
    WholeIsClean(value);
  }

  /** One pass is a fixed point exactly when the cut does not end on an underscore. */
  lemma OnceIsFixedExactlyWhen(value: string, fallback: string)
    requires GoodFallback(fallback)
    ensures Sanitize(Sanitize(value, fallback), fallback) == Sanitize(value, fallback) <==> !CutAtUnderscore(value)
  {
    SegmentShape(value, fallback);
    WholeOfNearlyClean(Sanitize(value, fallback));
  }

  /** Two passes always are. */
  lemma TwiceIsFixed(value: string, fallback: string)
    requires GoodFallback(fallback)
    ensures var twice := Sanitize(Sanitize(value, fallback), fallback); Sanitize(twice, fallback) == twice
  {
    var once := Sanitize(value, fallback);
    SegmentShape(value, fallback);
    WholeOfNearlyClean(once);
    OnceIsFixedExactlyWhen(once, fallback);
  }

  /** A clean segment that is not too long stays as it is. */
  lemma CleanIsFixed(s: string, fallback: string)
    requires s != "" && |s| <= MAX_SEGMENT && Clean(s)
    ensures Sanitize(s, fallback) == s
  {
    hide ReplaceRuns, StripStart, StripEnd;
    WholeOfNearlyClean(s);
  }

  // ---- Revisions -------------------------------------------------------------------

  function Digit(d: nat): char
    requires d < 10
  {
    ('0' as int + d) as char
  }

  function Decimal(n: nat): string {
    if n < 10 then [Digit(n)] else Decimal(n / 10) + [Digit(n % 10)]
  }

  predicate AllDigits(s: string) {
    forall i :: 0 <= i < |s| ==> IsDigit(s[i])
  }

  function Number(s: string): nat
    requires AllDigits(s)
  {
    if s == "" then 0 else 10 * Number(s[..|s| - 1]) + (s[|s| - 1] as int - '0' as int)
  }

  lemma {:induction false} DecimalRoundTrip(n: nat)
    ensures Decimal(n) != "" && AllDigits(Decimal(n)) && Number(Decimal(n)) == n
  {
    if n < 10 {
      assert Decimal(n)[..0] == "";
    } else {
      DecimalRoundTrip(n / 10);
      assert Decimal(n)[..|Decimal(n)| - 1] == Decimal(n / 10);
    }
  }

  // ---- Building and parsing -------------------------------------------------------------

  datatype Parts = Parts(category: string, grade: string, producer: string, revision: int, filename: string)

  function AtLeastOne(n: int): int {
    if n < 1 then 1 else n
  }

  /** What follows the last slash or backslash. */
  function BaseName(path: string): string {
    if path == "" || path[|path| - 1] == '/' || path[|path| - 1] == '\\' then ""
    else BaseName(path[..|path| - 1]) + [path[|path| - 1]]
  }

  function FileName(path: string): string {
    if BaseName(path) == "" then "document.pdf" else BaseName(path)
  }

  function FileSegment(path: string): string {
    Sanitize(FileName(path), "document.pdf")
  }

  function BuildKey(x: Parts): string {
    Join(["tds", Sanitize(x.category, "category"), Sanitize(x.grade, "grade"), Sanitize(x.producer, "producer"),
          "v" + Decimal(AtLeastOne(x.revision)), FileSegment(x.filename)], '/')
  }

  function StripLeadingSlashes(s: string): string {
    if s != "" && s[0] == '/' then StripLeadingSlashes(s[1..]) else s
  }

  function NonEmpty(parts: seq<string>): seq<string> {
    if parts == [] then []
    else if parts[0] == "" then NonEmpty(parts[1..])
    else [parts[0]] + NonEmpty(parts[1..])
  }

  function ParseKey(key: string): Option<Parts> {
    var parts := NonEmpty(Split(StripLeadingSlashes(key), '/'));
    if |parts| < 6 then None
    else if Lower(parts[0]) != "tds" then None
    else
      var v := parts[|parts| - 2];
      if |v| < 2 || (v[0] != 'v' && v[0] != 'V') || !AllDigits(v[1..]) then None
      else Some(Parts(parts[1], parts[2], parts[3], AtLeastOne(Number(v[1..])), parts[|parts| - 1]))
  }

  lemma {:induction false} NonEmptyKeepsAll(parts: seq<string>)
    requires forall i :: 0 <= i < |parts| ==> parts[i] != ""
    ensures NonEmpty(parts) == parts
  {
    if parts != [] {
      NonEmptyKeepsAll(parts[1..]);
    }
  }

  lemma FallbacksAreGood()
    ensures GoodFallback("category") && GoodFallback("grade") && GoodFallback("producer") && GoodFallback("document.pdf")
  {
  }

  /** What a built key says: the sanitized segments and the revision, at least one. */
  function Canonical(x: Parts): Parts {
    Parts(Sanitize(x.category, "category"), Sanitize(x.grade, "grade"), Sanitize(x.producer, "producer"),
          AtLeastOne(x.revision), FileSegment(x.filename))
  }

  predicate IsSegment(s: string) {
    s != "" && '/' !in s
  }

  lemma ParseJoined(category: string, grade: string, producer: string, revision: nat, file: string)
    requires IsSegment(category) && IsSegment(grade) && IsSegment(producer) && IsSegment(file) && revision >= 1
    ensures ParseKey(Join(["tds", category, grade, producer, "v" + Decimal(revision), file], '/'))
         == Some(Parts(category, grade, producer, revision, file))
  {
    DecimalRoundTrip(revision);
    var v := "v" + Decimal(revision);
    assert v[1..] == Decimal(revision);
    assert forall i :: 0 <= i < |v| ==> v[i] == 'v' || IsDigit(v[i]);
    var parts := ["tds", category, grade, producer, v, file];
    assert forall i :: 0 <= i < |parts| ==> IsSegment(parts[i]);
    SplitJoin(parts, '/');
    NonEmptyKeepsAll(parts);
    assert Join(parts, '/')[0] == 't';
    assert Lower("tds") == "tds";
  }

  lemma SegmentHasNoSlash(value: string, fallback: string)
    requires GoodFallback(fallback)
    ensures IsSegment(Sanitize(value, fallback)) && '\\' !in Sanitize(value, fallback)
  {
    SegmentShape(value, fallback);
  }

  /** Parsing a built key returns exactly its sanitized parts. */
  lemma ParseBuilt(x: Parts)
    ensures ParseKey(BuildKey(x)) == Some(Canonical(x))
  {
    FallbacksAreGood();
    SegmentHasNoSlash(x.category, "category");
    SegmentHasNoSlash(x.grade, "grade");
    SegmentHasNoSlash(x.producer, "producer");
    SegmentHasNoSlash(FileName(x.filename), "document.pdf");
    ParseJoined(Sanitize(x.category, "category"), Sanitize(x.grade, "grade"), Sanitize(x.producer, "producer"),
                AtLeastOne(x.revision), FileSegment(x.filename));
  }

  /** Two descriptions build one key exactly when their sanitized parts agree. */
  lemma SameKeyExactlyWhen(x: Parts, y: Parts)
    ensures BuildKey(x) == BuildKey(y) <==> Canonical(x) == Canonical(y)
  {
    ParseBuilt(x);
    ParseBuilt(y);
  }

  lemma {:induction false} BaseNameOfSegment(s: string)
    requires '/' !in s && '\\' !in s
    ensures BaseName(s) == s
  {
    if s != "" {
      BaseNameOfSegment(s[..|s| - 1]);
    }
  }

  lemma FileSegmentAgain(path: string)
    ensures FileSegment(FileSegment(path)) == FileSegment(path) <==> !CutAtUnderscore(FileName(path))
  {
    FallbacksAreGood();
    SegmentHasNoSlash(FileName(path), "document.pdf");
    BaseNameOfSegment(FileSegment(path));
    OnceIsFixedExactlyWhen(FileName(path), "document.pdf");
  }

  /**
   * Rebuilding a key from its parse gives the key again exactly when no segment was cut
   * right behind an underscore.
   */
  lemma RebuildExactlyWhen(x: Parts)
    ensures BuildKey(Canonical(x)) == BuildKey(x) <==>
              !CutAtUnderscore(x.category) && !CutAtUnderscore(x.grade) && !CutAtUnderscore(x.producer)
              && !CutAtUnderscore(FileName(x.filename))
  {
    FallbacksAreGood();
    OnceIsFixedExactlyWhen(x.category, "category");
    OnceIsFixedExactlyWhen(x.grade, "grade");
    OnceIsFixedExactlyWhen(x.producer, "producer");
    FileSegmentAgain(x.filename);
    SameKeyExactlyWhen(Canonical(x), x);
  }
}
