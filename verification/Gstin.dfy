/**
 * The GSTIN check digit: a Luhn-style sum over 36 symbols with weights 1 and 2.
 *
 * The theorems are about code sequences, where '0' is 0 and 'Z' is 35; `Codes` translates.
 */
module Gstin {
  import opened Text

  const ALPHABET: string := "0123456789ABCDEFGHIJKLMNOPQRSTUVWXYZ"

  const MOD: nat := 36

  predicate IsSymbol(c: char) { IsDigit(c) || IsUpper(c) }

  /** The position of a symbol in the alphabet. */
  function Code(c: char): (code: nat)
    requires IsSymbol(c)
    ensures code < MOD && ALPHABET[code] == c
  {
    if IsDigit(c) then c as int - '0' as int else 10 + (c as int - 'A' as int)
  }

  predicate AllSymbols(s: string) {
    forall i :: 0 <= i < |s| ==> IsSymbol(s[i])
  }

  function Codes(s: string): (cs: seq<nat>)
    requires AllSymbols(s)
    ensures |cs| == |s| && Ranged(cs)
  {
    seq(|s|, i requires 0 <= i < |s| => Code(s[i]))
  }

  predicate Ranged(cs: seq<nat>) {
    forall i :: 0 <= i < |cs| ==> cs[i] < MOD
  }

  function Weight(i: nat): nat {
    if i % 2 == 0 then 1 else 2
  }

  /** The two base-36 digits of the weighted code, added; weights alternate 1, 2, 1, ... */
  function Term(code: nat, i: nat): nat {
    var product := code * Weight(i);
    product / MOD + product % MOD
  }

  function Sum(cs: seq<nat>): nat {
    if cs == [] then 0 else Sum(cs[..|cs| - 1]) + Term(cs[|cs| - 1], |cs| - 1)
  }

  function CheckCode(sum: nat): (c: nat)
    ensures c < MOD
  {
    (MOD - sum % MOD) % MOD
  }

  /** The last code is the check code of everything before it. */
  predicate Accepts(cs: seq<nat>) {
    cs != [] && cs[|cs| - 1] == CheckCode(Sum(cs[..|cs| - 1]))
  }

  // ---- Arithmetic ------------------------------------------------------------------

  lemma TermValues(code: nat, i: nat)
    requires code < MOD
    ensures Term(code, i) == (if i % 2 == 0 then code else if code < 18 then 2 * code else 2 * code - 35)
  {
  }

  lemma SameCheckMeansSameSum(a: nat, b: nat)
    ensures CheckCode(a) == CheckCode(b) <==> a % MOD == b % MOD
  {
  }

  lemma SameRemainder(a: nat, b: nat, k: int)
    requires a == b + 36 * k
    ensures a % MOD == b % MOD
  {
    assert a / 36 == b / 36 + k;
  }

  lemma ModShift(before: nat, after: nat, x: nat, y: nat)
    requires after + x == before + y
    ensures CheckCode(before) == CheckCode(after) <==> x % MOD == y % MOD
  {
    SameCheckMeansSameSum(before, after);
    if before % MOD == after % MOD {
      SameRemainder(x, y, before / MOD - after / MOD);
    }
    if x % MOD == y % MOD {
      SameRemainder(before, after, x / MOD - y / MOD);
    }
  }

  lemma TermsDiffer(a: nat, b: nat, i: nat)
    requires a < MOD && b < MOD && a != b
    ensures Term(a, i) != Term(b, i) && Term(a, i) < MOD && Term(b, i) < MOD
  {
    TermValues(a, i);
    TermValues(b, i);
  }

  lemma SmallShift(before: nat, after: nat, x: nat, y: nat)
    requires after + x == before + y && x < MOD && y < MOD && x != y
    ensures CheckCode(before) != CheckCode(after)
  {
    SmallRemainder(x);
    SmallRemainder(y);
    ModShift(before, after, x, y);
  }

  /** One term may be replaced only by itself without changing the check code. */
  lemma ReplacedTerm(before: nat, after: nat, a: nat, b: nat, i: nat)
    requires a < MOD && b < MOD && a != b
    requires after + Term(a, i) == before + Term(b, i)
    ensures CheckCode(before) != CheckCode(after)
  {
    TermsDiffer(a, b, i);
    SmallShift(before, after, Term(a, i), Term(b, i));
  }

  /** How far one swap moves the sum, for codes a and b at an even place and the next. */
  function Double(code: nat): nat {
    if code < 18 then 2 * code else 2 * code - 35
  }

  lemma SmallRemainder(x: nat)
    requires x < 2 * MOD
    ensures x % MOD == if x < MOD then x else x - MOD
  {
  }

  lemma SwapValues(a: nat, b: nat)
    requires a < MOD && b < MOD && a != b
    ensures (a + Double(b)) % MOD == (b + Double(a)) % MOD <==> (a == 0 && b == 35) || (a == 35 && b == 0)
  {
    SmallRemainder(a + Double(b));
    SmallRemainder(b + Double(a));
  }

  /** The one pair of codes whose swap leaves the check code alone. */
  lemma SwappedTerms(before: nat, after: nat, a: nat, b: nat, i: nat)
    requires a < MOD && b < MOD && a != b
    requires after + Term(a, i) + Term(b, i + 1) == before + Term(b, i) + Term(a, i + 1)
    ensures CheckCode(before) == CheckCode(after) <==> (a == 0 && b == 35) || (a == 35 && b == 0)
  {
    TermValues(a, i);
    TermValues(b, i);
    TermValues(a, i + 1);
    TermValues(b, i + 1);
    if i % 2 == 0 {
      ModShift(before, after, a + Double(b), b + Double(a));
      SwapValues(a, b);
    } else {
      ModShift(before, after, Double(a) + b, Double(b) + a);
      SwapValues(b, a);
    }
  }

  lemma {:induction false} SumAfterUpdate(cs: seq<nat>, i: nat, c: nat)
    requires i < |cs|
    ensures Sum(cs[i := c]) + Term(cs[i], i) == Sum(cs) + Term(c, i)
  {
    var last := |cs| - 1;
    if i < last {
      SumAfterUpdate(cs[..last], i, c);
      assert cs[i := c][..last] == cs[..last][i := c];
    } else {
      assert cs[i := c][..last] == cs[..last];
    }
  }

  // ---- What the check digit detects ----------------------------------------------------

  /** Exactly one check symbol is accepted after any body. */
  lemma OneCheckSymbol(body: seq<nat>)
    requires Ranged(body)
    ensures exists c: nat :: c < MOD && Accepts(body + [c])
    ensures forall c: nat, d: nat :: Accepts(body + [c]) && Accepts(body + [d]) ==> c == d
  {
    forall c: nat ensures Accepts(body + [c]) <==> c == CheckCode(Sum(body)) {
      assert (body + [c])[..|body|] == body;
    }
    assert Accepts(body + [CheckCode(Sum(body))]);
  }

  /** Every change of a single symbol, the check symbol included, is detected. */
  lemma SubstitutionDetected(cs: seq<nat>, i: nat, c: nat)
    requires Ranged(cs) && i < |cs| && c < MOD && c != cs[i] && Accepts(cs)
    ensures !Accepts(cs[i := c])
  {
    var n := |cs| - 1;
    if i < n {
      assert cs[i := c][..n] == cs[..n][i := c];
      SumAfterUpdate(cs[..n], i, c);
      ReplacedTerm(Sum(cs[..n]), Sum(cs[i := c][..n]), cs[i], c, i);
    } else {
      assert cs[i := c][..n] == cs[..n];
    }
  }

  function Swapped(cs: seq<nat>, i: nat): seq<nat>
    requires i + 1 < |cs|
  {
    cs[i := cs[i + 1]][i + 1 := cs[i]]
  }

  /**
   * Swapping two different adjacent symbols before the check symbol goes unnoticed exactly
   * for '0' next to 'Z'.
   */
  lemma SwapDetectedExcept0Z(cs: seq<nat>, i: nat)
    requires Ranged(cs) && i + 2 < |cs| && cs[i] != cs[i + 1] && Accepts(cs)
    ensures Accepts(Swapped(cs, i)) <==> (cs[i] == 0 && cs[i + 1] == 35) || (cs[i] == 35 && cs[i + 1] == 0)
  {
    var body := cs[..|cs| - 1];
    assert Swapped(cs, i)[..|cs| - 1] == Swapped(body, i);
    SumAfterUpdate(body, i, body[i + 1]);
    SumAfterUpdate(body[i := body[i + 1]], i + 1, body[i]);
    SwappedTerms(Sum(body), Sum(Swapped(body, i)), cs[i], cs[i + 1], i);
  }

  lemma CheckCodeExactly(sum: nat, c: nat)
    requires c < MOD
    ensures c == CheckCode(sum) <==> (sum + c) % MOD == 0
  {
    SameRemainder(sum + c, sum % MOD + c, sum / MOD);
    SmallRemainder(sum % MOD + c);
  }

  lemma CheckSwapArithmetic(rest: nat, a: nat, c: nat, i: nat)
    requires a < MOD && c < MOD && a != c && i % 2 == 1 && c == CheckCode(rest + Term(a, i))
    ensures a == CheckCode(rest + Term(c, i)) <==> (a == 0 && c == 35) || (a == 35 && c == 0)
  {
    TermValues(a, i);
    TermValues(c, i);
    CheckCodeExactly(rest + Double(a), c);
    CheckCodeExactly(rest + Double(c), a);
    SwapValues(c, a);
    var before, after := rest + Double(a) + c, rest + Double(c) + a;
    ModShift(before, after, c + Double(a), a + Double(c));
    SameCheckMeansSameSum(before, after);
  }

  /**
   * Swapping the check symbol with its neighbour goes unnoticed exactly for '0' with 'Z', or when
   * the neighbour's weight is 1. The body of a GSTIN is even, so its last weight is 2.
   */
  lemma CheckSymbolSwapUnnoticedExactlyWhen(cs: seq<nat>)
    requires Ranged(cs) && |cs| > 1 && Accepts(cs) && cs[|cs| - 2] != cs[|cs| - 1]
    ensures var a, c := cs[|cs| - 2], cs[|cs| - 1];
            Accepts(Swapped(cs, |cs| - 2)) <==> Weight(|cs| - 2) == 1 || (a == 0 && c == 35) || (a == 35 && c == 0)
  {
    var n := |cs| - 1;
    var swapped := Swapped(cs, n - 1);
    assert cs[..n][..n - 1] == cs[..n - 1] && swapped[..n][..n - 1] == cs[..n - 1];
    var rest, a, c := Sum(cs[..n - 1]), cs[n - 1], cs[n];
    if (n - 1) % 2 == 1 {
      CheckSwapArithmetic(rest, a, c, n - 1);
    } else {
      TermValues(a, n - 1);
      TermValues(c, n - 1);
      CheckCodeExactly(rest + a, c);
      CheckCodeExactly(rest + c, a);
    }
  }

  // ---- The validator -------------------------------------------------------------------

  predicate MatchesPattern(s: string) {
    && |s| == 15
    && (forall i :: 0 <= i < 15 ==>
          if i < 2 || 7 <= i < 11 then IsDigit(s[i])
          else if i < 7 || i == 11 then IsUpper(s[i])
          else IsSymbol(s[i]))
    && s[12] != '0' && s[13] == 'Z'
  }

  /** State code, five letters, four digits and a letter of the PAN, entity code, 'Z', check symbol. */
  ghost predicate IsGstinOf(s: string, state: string, letters: string, digits: string, letter: char, entity: char, check: char) {
    && s == state + letters + digits + [letter, entity, 'Z', check]
    && |state| == 2 && (forall c :: c in state ==> IsDigit(c))
    && |letters| == 5 && (forall c :: c in letters ==> IsUpper(c))
    && |digits| == 4 && (forall c :: c in digits ==> IsDigit(c))
    && IsUpper(letter) && ('1' <= entity <= '9' || IsUpper(entity)) && (IsDigit(check) || IsUpper(check))
  }

  /** The pattern accepts exactly the strings put together in this way. */
  lemma PatternExactlyWhen(s: string)
    ensures MatchesPattern(s) <==>
              exists state, letters, digits, letter, entity, check :: IsGstinOf(s, state, letters, digits, letter, entity, check)
  {
    if MatchesPattern(s) {
      assert s == s[..2] + s[2..7] + s[7..11] + [s[11], s[12], 'Z', s[14]];
      assert IsGstinOf(s, s[..2], s[2..7], s[7..11], s[11], s[12], s[14]);
    }
    if state, letters, digits, letter, entity, check :| IsGstinOf(s, state, letters, digits, letter, entity, check) {
      PartsAt(s, state, letters, digits, letter, entity, check);
    }
  }

  lemma PartsAt(s: string, state: string, letters: string, digits: string, letter: char, entity: char, check: char)
    requires IsGstinOf(s, state, letters, digits, letter, entity, check)
    ensures MatchesPattern(s)
  {
    assert |s| == 15 && s[11] == letter && s[12] == entity && s[13] == 'Z' && s[14] == check;
    forall i | 0 <= i < 11 ensures if i < 2 || 7 <= i then IsDigit(s[i]) else IsUpper(s[i]) {
      if i < 2 {
        assert s[i] == state[i];
      } else if i < 7 {
        assert s[i] == letters[i - 2];
      } else {
        assert s[i] == digits[i - 7];
      }
    }
  }

  lemma SumNext(cs: seq<nat>, c: nat)
    ensures Sum(cs + [c]) == Sum(cs) + Term(c, |cs|)
  {
    assert (cs + [c])[..|cs|] == cs;
  }

  lemma SameParity(c: nat, i: nat, j: nat)
    requires i % 2 == j % 2
    ensures Term(c, i) == Term(c, j)
  {
  }

  lemma SumFour(cs: seq<nat>, a: nat, b: nat, c: nat, d: nat)
    requires |cs| % 2 == 0 && a < MOD && b < MOD && c < MOD && d < MOD
    ensures Sum(cs + [a, b, c, d]) == Sum(cs) + Term(a, 0) + Term(b, 1) + Term(c, 0) + Term(d, 1)
  {
    hide Sum, Term;
    SumNext(cs, a);
    SumNext(cs + [a], b);
    SumNext(cs + [a] + [b], c);
    SumNext(cs + [a] + [b] + [c], d);
    assert cs + [a, b, c, d] == cs + [a] + [b] + [c] + [d];
    SameParity(a, |cs|, 0);
    SameParity(b, |cs| + 1, 1);
    SameParity(c, |cs| + 2, 0);
    SameParity(d, |cs| + 3, 1);
  }

  const SAMPLE_CODES: seq<nat> := [2, 7, 10, 10, 25, 15, 30, 0, 9, 3, 9, 15, 1, 35, 31]

  /** The codes of 27AAPFU0939F1ZV end in their check code. */
  lemma SampleCodesAccepted()
    ensures Accepts(SAMPLE_CODES)
  {
    hide Sum, Term;
    var empty: seq<nat> := [];
    SumFour(empty, 2, 7, 10, 10);
    SumFour(empty + [2, 7, 10, 10], 25, 15, 30, 0);
    SumFour(empty + [2, 7, 10, 10] + [25, 15, 30, 0], 9, 3, 9, 15);
    SumNext(empty + [2, 7, 10, 10] + [25, 15, 30, 0] + [9, 3, 9, 15], 1);
    SumNext(empty + [2, 7, 10, 10] + [25, 15, 30, 0] + [9, 3, 9, 15] + [1], 35);
    assert SAMPLE_CODES[..14] == empty + [2, 7, 10, 10] + [25, 15, 30, 0] + [9, 3, 9, 15] + [1] + [35];
    SampleTerms();
  }

  lemma SampleTerms()
    ensures Sum([]) == 0
    ensures Term(2, 0) == 2 && Term(7, 1) == 14 && Term(10, 0) == 10 && Term(10, 1) == 20
    ensures Term(25, 0) == 25 && Term(15, 1) == 30 && Term(30, 0) == 30 && Term(0, 1) == 0
    ensures Term(9, 0) == 9 && Term(3, 1) == 6 && Term(1, 12) == 1 && Term(35, 13) == 35
  {
  }

  /** The specimen of the backend's own tests is a valid GSTIN. */
  lemma SpecimenIsValid()
    ensures var s := "27AAPFU0939F1ZV"; MatchesPattern(s) && AllSymbols(s) && Accepts(Codes(s))
  {
    var s := "27AAPFU0939F1ZV";
    SampleCodesAccepted();
    assert Codes(s) == SAMPLE_CODES;
  }

  lemma AlphabetIsInjective(a: nat, b: char)
    requires a < MOD && IsSymbol(b)
    ensures ALPHABET[a] == b <==> a == Code(b)
  {
  }

  /** The pattern, then the loop over the first fourteen symbols. */
  method GstinChecksumValid(gstin: string) returns (ok: bool)
    ensures ok <==> MatchesPattern(gstin) && AllSymbols(gstin) && Accepts(Codes(gstin))
  {
    if !MatchesPattern(gstin) {
      return false;
    }
    ghost var codes := Codes(gstin);
    var sum := 0;
    for i := 0 to 14
      invariant sum == Sum(codes[..i])
    {
      assert codes[..i + 1][..i] == codes[..i];
      var product := Code(gstin[i]) * Weight(i);
      sum := sum + (product / MOD + product % MOD);
    }
    var check := (MOD - sum % MOD) % MOD;
    AlphabetIsInjective(check, gstin[14]);
    return ALPHABET[check] == gstin[14];
  }
}
