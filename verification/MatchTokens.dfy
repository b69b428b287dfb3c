/**
 * Normalized tokens for pairing grades with documents: match tokens, producer base names,
 * and the alias tokens of a producer.
 */
module MatchTokens {
  import opened Prelude
  import opened Text

  predicate IsDash(c: char) { c == '_' || c == '-' }

  /** Upper case, dashes and underscores as blanks, blanks collapsed and trimmed. */
  function NormalizeMatchToken(value: string): string {
    Trim(ReplaceRuns(ReplaceRuns(Upper(Trim(value)), IsDash, ' '), IsSpace, ' '))
  }

  predicate Neat(s: string) {
    && Trimmed(s) && NoRuns(s, IsSpace)
    && forall i :: 0 <= i < |s| ==> !IsLower(s[i]) && !IsDash(s[i]) && (IsSpace(s[i]) ==> s[i] == ' ')
  }

  lemma NormalizedIsNeat(value: string)
    ensures Neat(NormalizeMatchToken(value))
  {
    var u := Upper(Trim(value));
    var a := ReplaceRuns(u, IsDash, ' ');
    var b := ReplaceRuns(a, IsSpace, ' ');
    ReplaceRunsShape(u, IsDash, ' ');
    ReplaceRunsShape(a, IsSpace, ' ');
    var from := TrimIsSlice(b);
  }

  lemma NeatIsFixed(s: string)
    requires Neat(s)
    ensures NormalizeMatchToken(s) == s
  {
    TrimFixed(s);
    assert Upper(s) == s;
    ReplaceRunsFixed(s, IsDash, ' ');
    ReplaceRunsFixed(s, IsSpace, ' ');
  }

  /** Normalizing twice is normalizing once. */
  lemma NormalizeIsIdempotent(value: string)
    ensures NormalizeMatchToken(NormalizeMatchToken(value)) == NormalizeMatchToken(value)
  {
    NormalizedIsNeat(value);
    NeatIsFixed(NormalizeMatchToken(value));
  }

  function SlashChar(c: char): char {
    if c == '\\' then '/' else c
  }

  function ForwardSlashes(s: string): string {
    seq(|s|, i requires 0 <= i < |s| => SlashChar(s[i]))
  }

  /** The idempotency key of a document: normalized category, grade, producer and path. */
  function BuildImportKey(category: string, grade: string, producer: string, filePath: string): string {
    NormalizeMatchToken(category) + "|" + NormalizeMatchToken(grade) + "|" + NormalizeMatchToken(producer) + "|"
    + ForwardSlashes(NormalizeMatchToken(filePath))
  }

  predicate PlainPath(s: string) {
    forall i :: 0 <= i < |s| ==> !IsSpace(s[i]) && !IsDash(s[i])
  }

  /** Without blanks, dashes and underscores, normalizing only changes case. */
  lemma PlainPathIsUppered(s: string)
    requires PlainPath(s)
    ensures NormalizeMatchToken(s) == Upper(s)
  {
    TrimFixed(s);
    ReplaceRunsFixed(Upper(s), IsDash, ' ');
    ReplaceRunsFixed(Upper(s), IsSpace, ' ');
    TrimFixed(Upper(s));
  }

  /** Import keys of one material tell plain paths apart up to case and slashes. */
  lemma ImportKeysDiffer(category: string, grade: string, producer: string, p: string, q: string, i: nat)
    requires PlainPath(p) && PlainPath(q) && i < |p| && i < |q| && SlashChar(UpperChar(p[i])) != SlashChar(UpperChar(q[i]))
    ensures BuildImportKey(category, grade, producer, p) != BuildImportKey(category, grade, producer, q)
  {
    PlainPathIsUppered(p);
    PlainPathIsUppered(q);
    var front := NormalizeMatchToken(category) + "|" + NormalizeMatchToken(grade) + "|" + NormalizeMatchToken(producer) + "|";
    var k, l := front + ForwardSlashes(Upper(p)), front + ForwardSlashes(Upper(q));
    assert k[|front| + i] != l[|front| + i];
  }

  // ---- Parentheses -------------------------------------------------------------------

  /** What follows the first closing parenthesis. */
  function AfterClose(s: string): (r: Option<string>)
    ensures r.Some? ==> |r.value| < |s|
  {
    if s == "" then None else if s[0] == ')' then Some(s[1..]) else AfterClose(s[1..])
  }

  /** Every parenthesised part with the blanks around it becomes one blank. */
  function StripParens(s: string): string
    decreases |s|
  {
    if s == "" then ""
    else
      var t := TrimStart(s);
      if t != "" && t[0] == '(' && AfterClose(t[1..]).Some?
      then " " + StripParens(TrimStart(AfterClose(t[1..]).value))
      else [s[0]] + StripParens(s[1..])
  }

  function ProducerBaseName(value: string): string {
    var raw := Trim(value);
    var bare := Trim(StripParens(raw));
    NormalizeMatchToken(if bare == "" then raw else bare)
  }

  function WithoutParens(s: string): string {
    if s == "" then ""
    else if s[0] == '(' || s[0] == ')' then WithoutParens(s[1..])
    else [s[0]] + WithoutParens(s[1..])
  }

  /** The contents of the non-empty parenthesised parts, from left to right. */
  function Inners(s: string): seq<string>
    decreases |s|
  {
    if s == "" then []
    else if s[0] == '(' && AfterClose(s[1..]).Some? && |AfterClose(s[1..]).value| + 2 < |s| then
      var rest := AfterClose(s[1..]).value;
      [WithoutParens(s[..|s| - |rest|])] + Inners(rest)
    else Inners(s[1..])
  }

  // ---- Alias tokens --------------------------------------------------------------------

  const PRODUCER_ALIAS_GROUPS: seq<seq<string>> := [
    ["EXXON", "EXXONMOBIL", "EXXON MOBIL", "EXXONMOBIL CHEMICAL"],
    ["DOW", "DOW CHEMICAL", "DOWCHEMICAL"],
    ["LG", "LG CHEM", "LGCHEM", "LG CHEMICAL"],
    ["SABIC", "SAUDI BASIC"],
    ["BOROUGE", "ABU DHABI POLYMERS"],
    ["RELIANCE", "RIL", "RELIANCE INDUSTRIES"],
    ["INEOS", "INEOS STYROLUTION"],
    ["TOTAL", "TOTALENERGIES", "TOTAL ENERGIES"],
    ["MOL", "MOLGROUP", "MOL GROUP"],
    ["BASELL", "LYONDELLBASELL", "LYONDELL BASELL"]]

  function GroupsWith(groups: seq<seq<string>>, token: string): seq<string> {
    if groups == [] then []
    else (if token in groups[0] then groups[0] else []) + GroupsWith(groups[1..], token)
  }

  function ExpandKnownProducerAliases(token: string): seq<string> {
    GroupsWith(PRODUCER_ALIAS_GROUPS, token)
  }

  /** Insertion into an ordered set; absent tokens are not added. */
  function Add(ts: seq<string>, t: string): seq<string> {
    if t == "" || t in ts then ts else ts + [t]
  }

  function AddAll(ts: seq<string>, more: seq<string>): seq<string>
    decreases more
  {
    if more == [] then ts else AddAll(Add(ts, more[0]), more[1..])
  }

  function NormalizeAll(parts: seq<string>): (r: seq<string>)
    ensures |r| == |parts|
  {
    seq(|parts|, i requires 0 <= i < |parts| => NormalizeMatchToken(parts[i]))
  }

  function LongParts(parts: seq<string>): seq<string> {
    if parts == [] then []
    else (if |parts[0]| >= 3 then [parts[0]] else []) + LongParts(parts[1..])
  }

  function ExpandAll(tokens: seq<string>): seq<string> {
    if tokens == [] then [] else ExpandKnownProducerAliases(tokens[0]) + ExpandAll(tokens[1..])
  }

  /** The tokens before known aliases are added. */
  function OwnTokens(value: string): seq<string> {
    var raw := Trim(value);
    var base := ProducerBaseName(raw);
    AddAll(AddAll(Add(Add([], NormalizeMatchToken(raw)), base), NormalizeAll(Inners(raw))), LongParts(Split(base, ' ')))
  }

  function ProducerAliasTokens(value: string): seq<string> {
    AddAll(OwnTokens(value), ExpandAll(OwnTokens(value)))
  }

  // ---- What the tokens are ----------------------------------------------------------------

  /** Adding never removes a token and never adds the empty one. */
  lemma {:induction false} AddAllKeeps(ts: seq<string>, more: seq<string>, t: string)
    ensures "" !in ts ==> "" !in AddAll(ts, more)
    ensures t in ts ==> t in AddAll(ts, more)
    decreases more
  {
    if more != [] {
      AddAllKeeps(Add(ts, more[0]), more[1..], t);
    }
  }

  /** No token is empty, and the base name is one unless it is. */
  lemma TokensHoldBase(value: string)
    ensures "" !in ProducerAliasTokens(value)
    ensures var base := ProducerBaseName(Trim(value)); base != "" ==> base in ProducerAliasTokens(value)
  {
    var raw := Trim(value);
    var base := ProducerBaseName(raw);
    var first := Add(Add([], NormalizeMatchToken(raw)), base);
    var second := AddAll(first, NormalizeAll(Inners(raw)));
    assert "" !in first && (base != "" ==> base in first);
    AddAllKeeps(first, NormalizeAll(Inners(raw)), base);
    AddAllKeeps(second, LongParts(Split(base, ' ')), base);
    AddAllKeeps(OwnTokens(value), ExpandAll(OwnTokens(value)), base);
  }

  /** A blank producer has no tokens. */
  lemma BlankHasNoTokens(value: string)
    requires Trim(value) == ""
    ensures ProducerAliasTokens(value) == []
  {
    assert Split("", ' ') == [""];
    assert LongParts([""]) == [];
  }

  predicate BarFree(s: string) {
    '|' !in s
  }

  predicate AllBarFree(ts: seq<string>) {
    forall i :: 0 <= i < |ts| ==> BarFree(ts[i])
  }

  lemma TrimBarFree(s: string)
    requires BarFree(s)
    ensures BarFree(Trim(s))
  {
    var from := TrimIsSlice(s);
  }

  lemma NormalizeBarFree(value: string)
    requires BarFree(value)
    ensures BarFree(NormalizeMatchToken(value))
  {
    TrimBarFree(value);
    var u := Upper(Trim(value));
    var a := ReplaceRuns(u, IsDash, ' ');
    ReplaceRunsShape(u, IsDash, ' ');
    ReplaceRunsShape(a, IsSpace, ' ');
    TrimBarFree(ReplaceRuns(a, IsSpace, ' '));
  }

  lemma {:induction false} AfterCloseBarFree(s: string)
    requires BarFree(s) && AfterClose(s).Some?
    ensures BarFree(AfterClose(s).value)
  {
    if s[0] != ')' {
      AfterCloseBarFree(s[1..]);
    }
  }

  lemma TrimStartBarFree(s: string)
    requires BarFree(s)
    ensures BarFree(TrimStart(s))
  {
    var from := TrimStartIsSuffix(s);
  }

  lemma {:induction false} StripParensBarFree(s: string)
    requires BarFree(s)
    ensures BarFree(StripParens(s))
    decreases |s|
  {
    if s != "" {
      var t := TrimStart(s);
      TrimStartBarFree(s);
      if t != "" && t[0] == '(' && AfterClose(t[1..]).Some? {
        AfterCloseBarFree(t[1..]);
        TrimStartBarFree(AfterClose(t[1..]).value);
        StripParensBarFree(TrimStart(AfterClose(t[1..]).value));
      } else {
        StripParensBarFree(s[1..]);
      }
    }
  }

  lemma BaseNameBarFree(value: string)
    requires BarFree(value)
    ensures BarFree(ProducerBaseName(value))
  {
    var raw := Trim(value);
    TrimBarFree(value);
    StripParensBarFree(raw);
    TrimBarFree(StripParens(raw));
    NormalizeBarFree(if Trim(StripParens(raw)) == "" then raw else Trim(StripParens(raw)));
  }

  lemma {:induction false} WithoutParensBarFree(s: string)
    requires BarFree(s)
    ensures BarFree(WithoutParens(s))
  {
    if s != "" {
      WithoutParensBarFree(s[1..]);
    }
  }

  lemma {:induction false} InnersBarFree(s: string)
    requires BarFree(s)
    ensures AllBarFree(Inners(s))
    decreases |s|
  {
    if s != "" {
      if s[0] == '(' && AfterClose(s[1..]).Some? && |AfterClose(s[1..]).value| + 2 < |s| {
        var rest := AfterClose(s[1..]).value;
        AfterCloseBarFree(s[1..]);
        WithoutParensBarFree(s[..|s| - |rest|]);
        InnersBarFree(rest);
      } else {
        InnersBarFree(s[1..]);
      }
    }
  }

  lemma {:induction false} SplitBarFree(s: string)
    requires BarFree(s)
    ensures AllBarFree(Split(s, ' '))
  {
    if s != "" {
      SplitBarFree(s[1..]);
    }
  }

  lemma {:induction false} LongPartsBarFree(parts: seq<string>)
    requires AllBarFree(parts)
    ensures AllBarFree(LongParts(parts))
  {
    if parts != [] {
      LongPartsBarFree(parts[1..]);
    }
  }

  lemma {:induction false} GroupsBarFree(groups: seq<seq<string>>, token: string)
    requires forall i :: 0 <= i < |groups| ==> AllBarFree(groups[i])
    ensures AllBarFree(GroupsWith(groups, token))
  {
    if groups != [] {
      GroupsBarFree(groups[1..], token);
    }
  }

  lemma AliasGroupsBarFree()
    ensures forall i :: 0 <= i < |PRODUCER_ALIAS_GROUPS| ==> AllBarFree(PRODUCER_ALIAS_GROUPS[i])
  {
  }

  lemma {:induction false} ExpandAllBarFree(tokens: seq<string>)
    ensures AllBarFree(ExpandAll(tokens))
  {
    hide AllBarFree, GroupsWith;
    if tokens == [] {
      NoneBarFree();
    } else {
      AliasGroupsBarFree();
      GroupsBarFree(PRODUCER_ALIAS_GROUPS, tokens[0]);
      ExpandAllBarFree(tokens[1..]);
      ConcatBarFree(ExpandKnownProducerAliases(tokens[0]), ExpandAll(tokens[1..]));
    }
  }

  lemma NoneBarFree()
    ensures AllBarFree([])
  {
  }

  lemma ConcatBarFree(a: seq<string>, b: seq<string>)
    requires AllBarFree(a) && AllBarFree(b)
    ensures AllBarFree(a + b)
  {
  }

  lemma {:induction false} AddAllBarFree(ts: seq<string>, more: seq<string>)
    requires AllBarFree(ts) && AllBarFree(more)
    ensures AllBarFree(AddAll(ts, more))
    decreases more
  {
    if more != [] {
      AddAllBarFree(Add(ts, more[0]), more[1..]);
    }
  }

  /** Tokens hold no bar unless the producer does. */
  lemma TokensBarFree(value: string)
    requires BarFree(value)
    ensures AllBarFree(ProducerAliasTokens(value))
  {
    var raw := Trim(value);
    TrimBarFree(value);
    var base := ProducerBaseName(raw);
    BaseNameBarFree(raw);
    NormalizeBarFree(raw);
    InnersBarFree(raw);
    var inner := NormalizeAll(Inners(raw));
    forall i | 0 <= i < |inner| ensures BarFree(inner[i]) { NormalizeBarFree(Inners(raw)[i]); }
    var first := Add(Add([], NormalizeMatchToken(raw)), base);
    AddAllBarFree(first, inner);
    SplitBarFree(base);
    LongPartsBarFree(Split(base, ' '));
    AddAllBarFree(AddAll(first, inner), LongParts(Split(base, ' ')));
    ExpandAllBarFree(OwnTokens(value));
    AddAllBarFree(OwnTokens(value), ExpandAll(OwnTokens(value)));
  }

  // ---- Neat tokens ---------------------------------------------------------------------------

  lemma {:induction false} SplitKeepsChars(s: string, sep: char)
    ensures forall i :: 0 <= i < |Split(s, sep)| ==> forall c :: c in Split(s, sep)[i] ==> c in s && c != sep
  {
    if s != "" {
      SplitKeepsChars(s[1..], sep);
    }
  }

  lemma {:induction false} LongPartsAreParts(parts: seq<string>)
    ensures forall t :: t in LongParts(parts) ==> t in parts
  {
    if parts != [] {
      LongPartsAreParts(parts[1..]);
    }
  }

  lemma {:induction false} AddAllAdds(ts: seq<string>, more: seq<string>)
    ensures forall t :: t in AddAll(ts, more) ==> t in ts || t in more
    decreases more
  {
    if more != [] {
      AddAllAdds(Add(ts, more[0]), more[1..]);
    }
  }

  lemma WordsOfNeatAreNeat(s: string, t: string)
    requires Neat(s) && t in LongParts(Split(s, ' '))
    ensures Neat(t)
  {
    LongPartsAreParts(Split(s, ' '));
    SplitKeepsChars(s, ' ');
    var i :| 0 <= i < |Split(s, ' ')| && Split(s, ' ')[i] == t;
    forall j | 0 <= j < |t| ensures t[j] in s && t[j] != ' ' {
      assert t[j] in Split(s, ' ')[i];
    }
  }

  lemma NormalizedAreNeat(parts: seq<string>, t: string)
    requires t in NormalizeAll(parts)
    ensures Neat(t)
  {
    var i :| 0 <= i < |parts| && NormalizeAll(parts)[i] == t;
    NormalizedIsNeat(parts[i]);
  }

  lemma OwnTokensNeat(value: string, t: string)
    requires t in OwnTokens(value)
    ensures Neat(t)
  {
    hide Neat, NormalizeMatchToken, LongParts, Split, NormalizeAll, Inners, ProducerBaseName, AddAll;
    var raw := Trim(value);
    var base := ProducerBaseName(raw);
    var first := Add(Add([], NormalizeMatchToken(raw)), base);
    AddAllAdds(first, NormalizeAll(Inners(raw)));
    AddAllAdds(AddAll(first, NormalizeAll(Inners(raw))), LongParts(Split(base, ' ')));
    NormalizedIsNeat(raw);
    BaseNameIsNeat(raw);
    if t in LongParts(Split(base, ' ')) {
      WordsOfNeatAreNeat(base, t);
    }
    if t in NormalizeAll(Inners(raw)) {
      NormalizedAreNeat(Inners(raw), t);
    }
  }

  lemma BaseNameIsNeat(value: string)
    ensures Neat(ProducerBaseName(value))
  {
    var bare := Trim(StripParens(Trim(value)));
    NormalizedIsNeat(if bare == "" then Trim(value) else bare);
  }

  /** Every token is neat, or a known alias, which starts with a letter and holds no bar. */
  lemma TokensNeatOrAlias(value: string, t: string)
    requires t in ProducerAliasTokens(value)
    ensures Neat(t) || (BarFree(t) && t != "" && t[0] != ' ')
  {
    hide Neat, AddAll, OwnTokens, ExpandAll, BarFree;
    AddAllAdds(OwnTokens(value), ExpandAll(OwnTokens(value)));
    if t in OwnTokens(value) {
      OwnTokensNeat(value, t);
    } else {
      AliasesStartWithLetters(OwnTokens(value), t);
    }
  }

  lemma {:induction false} AliasesStartWithLetters(tokens: seq<string>, t: string)
    requires t in ExpandAll(tokens)
    ensures BarFree(t) && t != "" && t[0] != ' '
  {
    hide BarFree, GroupsWith;
    if t in ExpandAll(tokens[1..]) {
      AliasesStartWithLetters(tokens[1..], t);
    } else {
      GroupMember(PRODUCER_ALIAS_GROUPS, tokens[0], t);
      var i :| 0 <= i < |PRODUCER_ALIAS_GROUPS| && t in PRODUCER_ALIAS_GROUPS[i];
      AliasGroupStartsWithLetters(i, t);
    }
  }

  lemma {:induction false} GroupMember(groups: seq<seq<string>>, token: string, t: string)
    requires t in GroupsWith(groups, token)
    ensures exists i :: 0 <= i < |groups| && t in groups[i]
  {
    if t in groups[0] && token in groups[0] {
      assert t in groups[0];
    } else {
      GroupMember(groups[1..], token, t);
      var i :| 0 <= i < |groups[1..]| && t in groups[1..][i];
      assert t in groups[i + 1];
    }
  }

  lemma AliasGroupStartsWithLetters(i: nat, t: string)
    requires i < |PRODUCER_ALIAS_GROUPS| && t in PRODUCER_ALIAS_GROUPS[i]
    ensures BarFree(t) && t != "" && t[0] != ' '
  {
    AliasGroupsBarFree();
  }

  /** A neat token is a token of itself. */
  lemma NeatTokenIsOwn(t: string)
    requires t != "" && Neat(t)
    ensures t in ProducerAliasTokens(t)
  {
    hide NormalizeAll, Inners, LongParts, Split, AddAll, ProducerBaseName;
    TrimFixed(t);
    NeatIsFixed(t);
    var base := ProducerBaseName(t);
    var first := Add(Add([], t), base);
    assert t in first;
    AddAllKeeps(first, NormalizeAll(Inners(t)), t);
    AddAllKeeps(AddAll(first, NormalizeAll(Inners(t))), LongParts(Split(base, ' ')), t);
    AddAllKeeps(OwnTokens(t), ExpandAll(OwnTokens(t)), t);
  }

  /** A slice of neat text that starts and ends on a visible character is neat. */
  lemma NeatSlice(s: string, i: nat, j: nat)
    requires Neat(s) && i < j <= |s| && s[i] != ' ' && s[j - 1] != ' '
    ensures Neat(s[i..j])
  {
    var t := s[i..j];
    assert forall k :: 0 <= k < |t| ==> t[k] == s[i + k];
    forall k | 0 <= k < |t| - 1 ensures !(IsSpace(t[k]) && IsSpace(t[k + 1])) {
      assert t[k] == s[i + k] && t[k + 1] == s[i + k + 1];
    }
  }

  /** Normalizing keeps characters, in upper case, and adds only blanks. */
  lemma NormalizedChars(value: string, c: char)
    requires c in NormalizeMatchToken(value)
    ensures c == ' ' || exists x :: x in value && c == UpperChar(x)
  {
    var t := Trim(value);
    var u := Upper(t);
    var a := ReplaceRuns(u, IsDash, ' ');
    var b := ReplaceRuns(a, IsSpace, ' ');
    var from := TrimIsSlice(value);
    ReplaceRunsShape(u, IsDash, ' ');
    ReplaceRunsShape(a, IsSpace, ' ');
    var at := TrimIsSlice(b);
    if c != ' ' {
      assert c in b;
      assert c in a;
      assert c in u;
      var i :| 0 <= i < |u| && u[i] == c;
      assert t[i] in value && c == UpperChar(t[i]);
    }
  }

  // ---- As it runs --------------------------------------------------------------------------

  method CollectGroups(groups: seq<seq<string>>, token: string) returns (aliases: seq<string>)
    ensures aliases == GroupsWith(groups, token)
  {
    aliases := [];
    for g := 0 to |groups|
      invariant aliases + GroupsWith(groups[g..], token) == GroupsWith(groups, token)
    {
      assert groups[g..][1..] == groups[g + 1..];
      if token in groups[g] {
        aliases := aliases + groups[g];
      }
    }
  }

  /** Collects the alias groups that hold a token. */
  method CollectAliases(token: string) returns (aliases: seq<string>)
    ensures aliases == ExpandKnownProducerAliases(token)
  {
    aliases := CollectGroups(PRODUCER_ALIAS_GROUPS, token);
  }

  /** Adds tokens one after another. */
  method AddEach(tokens: seq<string>, more: seq<string>) returns (r: seq<string>)
    ensures r == AddAll(tokens, more)
  {
    r := tokens;
    for i := 0 to |more|
      invariant AddAll(r, more[i..]) == AddAll(tokens, more)
    {
      assert more[i..][1..] == more[i + 1..];
      r := Add(r, more[i]);
    }
  }

  lemma {:induction false} AddAllConcat(ts: seq<string>, a: seq<string>, b: seq<string>)
    ensures AddAll(ts, a + b) == AddAll(AddAll(ts, a), b)
    decreases a
  {
    if a == [] {
      assert a + b == b;
    } else {
      assert (a + b)[1..] == a[1..] + b;
      AddAllConcat(Add(ts, a[0]), a[1..], b);
    }
  }

  method CollectTokens(value: string) returns (tokens: seq<string>)
    ensures tokens == ProducerAliasTokens(value)
  {
    var raw := Trim(value);
    tokens := Add([], NormalizeMatchToken(raw));
    var base := ProducerBaseName(raw);
    tokens := Add(tokens, base);
    tokens := AddEach(tokens, NormalizeAll(Inners(raw)));
    tokens := AddEach(tokens, LongParts(Split(base, ' ')));
    var own := tokens;
    for i := 0 to |own|
      invariant AddAll(tokens, ExpandAll(own[i..])) == AddAll(own, ExpandAll(own))
    {
      assert own[i..][1..] == own[i + 1..];
      var aliases := CollectAliases(own[i]);
      AddAllConcat(tokens, aliases, ExpandAll(own[i + 1..]));
      tokens := AddEach(tokens, aliases);
    }
  }
}
