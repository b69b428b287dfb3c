/**
 * The string operations the services lean on, for ASCII text: trimming, case mapping,
 * replacing runs of characters, splitting and joining.
 */
module Text {

  predicate IsSpace(c: char) {
    c == ' ' || 9 <= c as int <= 13
  }

  predicate IsLower(c: char) { 'a' <= c <= 'z' }

  predicate IsUpper(c: char) { 'A' <= c <= 'Z' }

  predicate IsDigit(c: char) { '0' <= c <= '9' }

  function UpperChar(c: char): char {
    if IsLower(c) then (c as int - 32) as char else c
  }

  function LowerChar(c: char): char {
    if IsUpper(c) then (c as int + 32) as char else c
  }

  function Upper(s: string): (r: string)
    ensures |r| == |s|
  {
    seq(|s|, i requires 0 <= i < |s| => UpperChar(s[i]))
  }

  function Lower(s: string): (r: string)
    ensures |r| == |s|
  {
    seq(|s|, i requires 0 <= i < |s| => LowerChar(s[i]))
  }

  function TrimStart(s: string): (r: string)
    ensures |r| <= |s|
  {
    if s != "" && IsSpace(s[0]) then TrimStart(s[1..]) else s
  }

  function TrimEnd(s: string): string {
    if s != "" && IsSpace(s[|s| - 1]) then TrimEnd(s[..|s| - 1]) else s
  }

  function Trim(s: string): string {
    TrimEnd(TrimStart(s))
  }

  /** Every maximal run of characters satisfying `p` becomes one `c`. */
  function ReplaceRuns(s: string, p: char -> bool, c: char): string {
    if s == "" then ""
    else if !p(s[0]) then [s[0]] + ReplaceRuns(s[1..], p, c)
    else if |s| > 1 && p(s[1]) then ReplaceRuns(s[1..], p, c)
    else [c] + ReplaceRuns(s[1..], p, c)
  }

  predicate StartsWith(s: string, prefix: string) {
    prefix <= s
  }

  predicate Contains(s: string, part: string) {
    exists i :: 0 <= i <= |s| && part <= s[i..]
  }

  /** Without trailing slashes. */
  function StripSlashes(s: string): string {
    if s != "" && s[|s| - 1] == '/' then StripSlashes(s[..|s| - 1]) else s
  }

  /** The pieces between separators; n separators give n + 1 pieces. */
  function Split(s: string, sep: char): (r: seq<string>)
    ensures r != []
  {
    if s == "" then [""]
    else
      var rest := Split(s[1..], sep);
      if s[0] == sep then [""] + rest else [[s[0]] + rest[0]] + rest[1..]
  }

  function Join(parts: seq<string>, sep: char): string
    requires parts != []
  {
    if |parts| == 1 then parts[0] else parts[0] + [sep] + Join(parts[1..], sep)
  }

  /** Splitting what was joined gives the parts back when none holds the separator. */
  lemma {:induction false} SplitJoin(parts: seq<string>, sep: char)
    requires parts != [] && forall i :: 0 <= i < |parts| ==> sep !in parts[i]
    ensures Split(Join(parts, sep), sep) == parts
  {
    if |parts| == 1 {
      SplitPlain(parts[0], sep);
    } else {
      SplitJoin(parts[1..], sep);
      SplitPrefix(parts[0], Join(parts[1..], sep), sep);
      assert parts[0] + [sep] + Join(parts[1..], sep) == parts[0] + ([sep] + Join(parts[1..], sep));
    }
  }

  lemma {:induction false} SplitPlain(s: string, sep: char)
    requires sep !in s
    ensures Split(s, sep) == [s]
  {
    if s != "" {
      SplitPlain(s[1..], sep);
      assert [s[0]] + s[1..] == s;
    }
  }

  lemma {:induction false} SplitPrefix(head: string, tail: string, sep: char)
    requires sep !in head
    ensures Split(head + ([sep] + tail), sep) == [head] + Split(tail, sep)
  {
    var s := head + ([sep] + tail);
    if head == "" {
      assert s == [sep] + tail && s[1..] == tail;
    } else {
      SplitPrefix(head[1..], tail, sep);
      assert s[1..] == head[1..] + ([sep] + tail);
      assert [head[0]] + head[1..] == head && ([head[1..]] + Split(tail, sep))[1..] == Split(tail, sep);
    }
  }

  /** Joining the split pieces gives the string back, and no piece holds the separator. */
  lemma {:induction false} JoinSplit(s: string, sep: char)
    ensures Join(Split(s, sep), sep) == s
    ensures forall i :: 0 <= i < |Split(s, sep)| ==> sep !in Split(s, sep)[i]
  {
    if s != "" {
      JoinSplit(s[1..], sep);
      var rest := Split(s[1..], sep);
      if s[0] == sep {
        assert ([""] + rest)[1..] == rest;
      } else if |rest| > 1 {
        assert ([[s[0]] + rest[0]] + rest[1..])[1..] == rest[1..];
      }
    }
  }

  // ---- Trimming and run replacement ----------------------------------------------------

  /** No blank at either end. */
  predicate Trimmed(s: string) {
    s == "" || (!IsSpace(s[0]) && !IsSpace(s[|s| - 1]))
  }

  /** `r` is the slice of `s` from `from`. */
  predicate SliceAt(r: string, s: string, from: nat) {
    from + |r| <= |s| && r == s[from..from + |r|]
  }

  lemma {:induction false} TrimEndIsPrefix(s: string)
    ensures TrimEnd(s) <= s && (TrimEnd(s) == "" || !IsSpace(TrimEnd(s)[|TrimEnd(s)| - 1]))
    ensures s != "" && !IsSpace(s[0]) ==> TrimEnd(s) != ""
  {
    if s != "" && IsSpace(s[|s| - 1]) {
      TrimEndIsPrefix(s[..|s| - 1]);
    }
  }

  lemma {:induction false} TrimStartIsSuffix(s: string) returns (from: nat)
    ensures from <= |s| && TrimStart(s) == s[from..]
    ensures TrimStart(s) == "" || !IsSpace(TrimStart(s)[0])
  {
    if s != "" && IsSpace(s[0]) {
      var rest := TrimStartIsSuffix(s[1..]);
      from := rest + 1;
    } else {
      from := 0;
    }
  }

  lemma TrimIsSlice(s: string) returns (from: nat)
    ensures Trimmed(Trim(s)) && SliceAt(Trim(s), s, from)
  {
    from := TrimStartIsSuffix(s);
    TrimEndIsPrefix(TrimStart(s));
  }

  lemma TrimFixed(s: string)
    requires Trimmed(s)
    ensures Trim(s) == s
  {
  }

  predicate NoRuns(s: string, p: char -> bool) {
    forall i :: 0 <= i < |s| - 1 ==> !(p(s[i]) && p(s[i + 1]))
  }

  /** Characters of the result are kept ones and `c`; runs are gone. */
  lemma {:induction false} ReplaceRunsShape(s: string, p: char -> bool, c: char)
    ensures var r := ReplaceRuns(s, p, c);
            && (r == "" <==> s == "")
            && (forall i :: 0 <= i < |r| ==> r[i] == c || (!p(r[i]) && r[i] in s))
            && (p(c) ==> NoRuns(r, p) && (s != "" ==> p(r[0]) == p(s[0])))
  {
    if s != "" {
      ReplaceRunsShape(s[1..], p, c);
    }
  }

  lemma {:induction false} ReplaceRunsFixed(s: string, p: char -> bool, c: char)
    requires NoRuns(s, p) && forall i :: 0 <= i < |s| && p(s[i]) ==> s[i] == c
    ensures ReplaceRuns(s, p, c) == s
  {
    if s != "" {
      ReplaceRunsFixed(s[1..], p, c);
    }
  }
}
