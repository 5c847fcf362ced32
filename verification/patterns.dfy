/** The five regular expressions of `extract_time_range` in utils/timestamp_utils.py,
    as recognisers over the query text. Every pattern is compiled with IGNORECASE.

    Each recogniser follows the path Python's backtracking matcher takes: every
    greedy piece of these patterns is followed by a piece that cannot start with a
    character the greedy piece consumed, so the first path the matcher tries is the
    only one that can succeed, and a match at a given start position is unique. */
module Patterns {
  import opened Common
  import opened Text

  /** The patterns, in the order `extract_time_range` tries them:
      `from\s+T\s+to\s+T`, `between\s+T\s+and\s+T`, `T\s*-\s*T`,
      `at\s+(?:the\s+)?T(?:\s+minute)?\s+mark` and `(first|last)\s+(\d+)\s+minutes`,
      where T is the time token `\d+:?\d*:?\d*`. */
  datatype Rule = FromTo | BetweenAnd | Dash | Mark | FirstLast

  /** A match: where it starts and the texts of its capture groups. */
  datatype Found = Found(at: nat, groups: seq<string>)

  // ---------------------------------------------------------------------------
  // Scanners: each reads one piece of a pattern at position i of the query

  /** The end of the run of whitespace starting at i: `\s*`. */
  function SpacesEnd(q: string, i: nat): (j: nat)
    requires i <= |q|
    ensures i <= j <= |q|
    decreases |q| - i
  {
    if i < |q| && IsSpace(q[i]) then SpacesEnd(q, i + 1) else i
  }

  /** `\s+`: at least one whitespace character, then as many as there are. */
  function Spaces1(q: string, i: nat): (r: Option<nat>)
    requires i <= |q|
    ensures r.Some? ==> i < r.value <= |q|
  {
    var j := SpacesEnd(q, i);
    if j > i then Some(j) else None
  }

  /** The end of the run of digits starting at i. */
  function DigitsEnd(q: string, i: nat): (j: nat)
    requires i <= |q|
    ensures i <= j <= |q|
    decreases |q| - i
  {
    if i < |q| && IsDigit(q[i]) then DigitsEnd(q, i + 1) else i
  }

  /** `\d+`: the end of a non-empty run of digits. */
  function Digits1(q: string, i: nat): (r: Option<nat>)
    requires i <= |q|
    ensures r.Some? ==> i < r.value <= |q|
  {
    var j := DigitsEnd(q, i);
    if j > i then Some(j) else None
  }

  /** The greedy reading of `\d+:?\d*:?\d*` after its first digit: digits, and a
      colon whenever fewer than two colons have been read. */
  function TokenEnd(q: string, i: nat, colons: nat): (j: nat)
    requires i <= |q|
    ensures i <= j <= |q|
    decreases |q| - i
  {
    if i < |q| && (IsDigit(q[i]) || (q[i] == ':' && colons < 2)) then
      TokenEnd(q, i + 1, if q[i] == ':' then colons + 1 else colons)
    else i
  }

  /** The time token T starting at i, if one does. */
  function Token(q: string, i: nat): (r: Option<nat>)
    requires i <= |q|
    ensures r.Some? ==> i < r.value <= |q|
  {
    if i < |q| && IsDigit(q[i]) then Some(TokenEnd(q, i + 1, 0)) else None
  }

  /** A keyword of the pattern, compared case-insensitively. */
  function Keyword(q: string, i: nat, w: string): (r: Option<nat>)
    requires i <= |q|
    ensures r.Some? ==> r.value == i + |w| <= |q| && Lower(q[i..r.value]) == w
  {
    if i + |w| <= |q| && Lower(q[i..i + |w|]) == w then Some(i + |w|) else None
  }

  // ---------------------------------------------------------------------------
  // The patterns

  /** `kw1\s+(T)\s+kw2\s+(T)`: the shape of the `from … to …` and `between … and …` patterns. */
  function KeywordRangeAt(q: string, i: nat, kw1: string, kw2: string): Option<seq<string>>
    requires i <= |q|
  {
    var a :- Keyword(q, i, kw1);
    var b :- Spaces1(q, a);
    var c :- Token(q, b);
    var d :- Spaces1(q, c);
    var e :- Keyword(q, d, kw2);
    var f :- Spaces1(q, e);
    var g :- Token(q, f);
    Some([q[b..c], q[f..g]])
  }

  /** `(T)\s*-\s*(T)`. */
  function DashAt(q: string, i: nat): Option<seq<string>>
    requires i <= |q|
  {
    var a :- Token(q, i);
    var b := SpacesEnd(q, a);
    var c :- Keyword(q, b, "-");
    var d := SpacesEnd(q, c);
    var e :- Token(q, d);
    Some([q[i..a], q[d..e]])
  }

  /** `at\s+(?:the\s+)?(T)(?:\s+minute)?\s+mark`. Each optional group is taken when
      its text is there; when it is, leaving it out cannot lead to a match either. */
  function MarkAt(q: string, i: nat): Option<seq<string>>
    requires i <= |q|
  {
    var a :- Keyword(q, i, "at");
    var b :- Spaces1(q, a);
    var c := OptionalThe(q, b);
    var d :- Token(q, c);
    var e := OptionalMinute(q, d);
    var f :- Spaces1(q, e);
    var _ :- Keyword(q, f, "mark");
    Some([q[c..d]])
  }

  /** `(?:the\s+)?` at i. */
  function OptionalThe(q: string, i: nat): (j: nat)
    requires i <= |q|
    ensures i <= j <= |q|
  {
    match Keyword(q, i, "the")
    case Some(a) =>
      (match Spaces1(q, a)
       case Some(b) => b
       case None => i)
    case None => i
  }

  /** `(?:\s+minute)?` at i. */
  function OptionalMinute(q: string, i: nat): (j: nat)
    requires i <= |q|
    ensures i <= j <= |q|
  {
    match Spaces1(q, i)
    case Some(a) =>
      (match Keyword(q, a, "minute")
       case Some(b) => b
       case None => i)
    case None => i
  }

  /** `(first|last)\s+(\d+)\s+minutes`. */
  function FirstLastAt(q: string, i: nat): Option<seq<string>>
    requires i <= |q|
  {
    var a :- (match Keyword(q, i, "first")
              case Some(a) => Some(a)
              case None => Keyword(q, i, "last"));
    var b :- Spaces1(q, a);
    var c :- Digits1(q, b);
    var d :- Spaces1(q, c);
    var _ :- Keyword(q, d, "minutes");
    Some([q[i..a], q[b..c]])
  }

  /** The match of `rule` starting exactly at position i, as `re.match` at that position would give it. */
  function MatchAt(rule: Rule, q: string, i: nat): Option<seq<string>>
    requires i <= |q|
  {
    match rule
    case FromTo => KeywordRangeAt(q, i, "from", "to")
    case BetweenAnd => KeywordRangeAt(q, i, "between", "and")
    case Dash => DashAt(q, i)
    case Mark => MarkAt(q, i)
    case FirstLast => FirstLastAt(q, i)
  }

  /** `re.search`: the match at the leftmost position at or after i. */
  function SearchFrom(rule: Rule, q: string, i: nat): (r: Option<Found>)
    requires i <= |q|
    ensures r.Some? ==> i <= r.value.at <= |q|
    decreases |q| - i
  {
    match MatchAt(rule, q, i)
    case Some(groups) => Some(Found(i, groups))
    case None => if i == |q| then None else SearchFrom(rule, q, i + 1)
  }

  /** `re.search` finds the leftmost match: a match found is a match at its
      position and there is none before it, and when nothing is found there is
      no match at any position. */
  lemma {:induction false} SearchFromLeftmost(rule: Rule, q: string, i: nat)
    requires i <= |q|
    ensures var r := SearchFrom(rule, q, i);
      r.Some? ==> MatchAt(rule, q, r.value.at) == Some(r.value.groups)
    ensures var r := SearchFrom(rule, q, i);
      r.Some? ==> forall j :: i <= j < r.value.at ==> MatchAt(rule, q, j).None?
    ensures var r := SearchFrom(rule, q, i);
      r.None? ==> forall j :: i <= j <= |q| ==> MatchAt(rule, q, j).None?
    decreases |q| - i
  {
    var m := MatchAt(rule, q, i);
    if m.Some? {
      assert SearchFrom(rule, q, i) == Some(Found(i, m.value));
    } else if i == |q| {
      assert SearchFrom(rule, q, i).None?;
    } else {
      var r := SearchFrom(rule, q, i + 1);
      assert SearchFrom(rule, q, i) == r;
      SearchFromLeftmost(rule, q, i + 1);
      if r.Some? {
        forall j | i <= j < r.value.at ensures MatchAt(rule, q, j).None? {
          if j == i { assert MatchAt(rule, q, j) == m; }
        }
      } else {
        forall j | i <= j <= |q| ensures MatchAt(rule, q, j).None? {
          if j == i { assert MatchAt(rule, q, j) == m; }
        }
      }
    }
  }

  function Search(rule: Rule, q: string): Option<Found> {
    SearchFrom(rule, q, 0)
  }

  // ---------------------------------------------------------------------------
  // What the groups are

  /** A text the time token `\d+:?\d*:?\d*` matches: a digit, then digits and at most two colons. */
  predicate IsTimeToken(t: string) {
    |t| > 0 && IsDigit(t[0])
    && (forall k :: 0 <= k < |t| ==> IsDigit(t[k]) || t[k] == ':')
    && Count(t, ':') <= 2
  }

  /** `Count` of a slice that starts one character later. */
  lemma CountSliceFront(q: string, i: nat, j: nat, c: char)
    requires i < j <= |q|
    ensures Count(q[i..j], c) == (if q[i] == c then 1 else 0) + Count(q[i + 1..j], c)
  {
    assert q[i..j][1..] == q[i + 1..j];
  }

  /** The greedy token scan reads only digits and colons, never more than two colons
      in all, and stops only where neither another digit nor another colon may follow. */
  lemma {:induction false} TokenEndScan(q: string, i: nat, colons: nat)
    requires i <= |q| && colons <= 2
    ensures forall k :: i <= k < TokenEnd(q, i, colons) ==> IsDigit(q[k]) || q[k] == ':'
    ensures colons + Count(q[i..TokenEnd(q, i, colons)], ':') <= 2
    ensures var j := TokenEnd(q, i, colons);
      j == |q| || !(IsDigit(q[j]) || (q[j] == ':' && colons + Count(q[i..j], ':') < 2))
    decreases |q| - i
  {
    var j := TokenEnd(q, i, colons);
    if i < |q| && (IsDigit(q[i]) || (q[i] == ':' && colons < 2)) {
      var c' := if q[i] == ':' then colons + 1 else colons;
      TokenEndScan(q, i + 1, c');
      CountSliceFront(q, i, j, ':');
    } else {
      assert q[i..j] == [];
    }
  }

  /** The token T is a time token, and the longest one that starts there. */
  lemma TokenIsTimeToken(q: string, i: nat)
    requires i <= |q| && Token(q, i).Some?
    ensures IsTimeToken(q[i..Token(q, i).value])
    ensures var j := Token(q, i).value;
      j == |q| || !(IsDigit(q[j]) || (q[j] == ':' && Count(q[i..j], ':') < 2))
  {
    var j := Token(q, i).value;
    TokenEndScan(q, i + 1, 0);
    CountSliceFront(q, i, j, ':');
  }

  /** The group of `\d+` is a digit string. */
  lemma {:induction false} DigitsEndScan(q: string, i: nat)
    requires i <= |q|
    ensures AllDigits(q[i..DigitsEnd(q, i)])
    ensures DigitsEnd(q, i) == |q| || !IsDigit(q[DigitsEnd(q, i)])
    decreases |q| - i
  {
    if i < |q| && IsDigit(q[i]) {
      DigitsEndScan(q, i + 1);
      assert forall k :: 0 < k < DigitsEnd(q, i) - i ==> q[i..DigitsEnd(q, i)][k] == q[i + 1..DigitsEnd(q, i)][k - 1];
    }
  }

  /** The capture groups of each pattern: time tokens for the range and mark
      patterns, the keyword and a digit string for the first/last pattern. */
  predicate GroupShape(rule: Rule, g: seq<string>) {
    match rule
    case Mark => |g| == 1 && IsTimeToken(g[0])
    case FirstLast => |g| == 2 && (Lower(g[0]) == "first" || Lower(g[0]) == "last") && IsDigits(g[1])
    case _ => |g| == 2 && IsTimeToken(g[0]) && IsTimeToken(g[1])
  }

  lemma MatchGroups(rule: Rule, q: string, i: nat)
    requires i <= |q| && MatchAt(rule, q, i).Some?
    ensures GroupShape(rule, MatchAt(rule, q, i).value)
  {
    match rule
    case FromTo => KeywordRangeGroups(q, i, "from", "to");
    case BetweenAnd => KeywordRangeGroups(q, i, "between", "and");
    case Dash =>
      var a := Token(q, i).value;
      TokenIsTimeToken(q, i);
      var d := SpacesEnd(q, Keyword(q, SpacesEnd(q, a), "-").value);
      TokenIsTimeToken(q, d);
    case Mark =>
      var b := Spaces1(q, Keyword(q, i, "at").value).value;
      TokenIsTimeToken(q, OptionalThe(q, b));
    case FirstLast =>
      var a := if Keyword(q, i, "first").Some? then Keyword(q, i, "first").value else Keyword(q, i, "last").value;
      var b := Spaces1(q, a).value;
      DigitsEndScan(q, b);
  }

  lemma KeywordRangeGroups(q: string, i: nat, kw1: string, kw2: string)
    requires i <= |q| && KeywordRangeAt(q, i, kw1, kw2).Some?
    ensures var g := KeywordRangeAt(q, i, kw1, kw2).value;
      |g| == 2 && IsTimeToken(g[0]) && IsTimeToken(g[1])
  {
    var b := Spaces1(q, Keyword(q, i, kw1).value).value;
    TokenIsTimeToken(q, b);
    var c := Token(q, b).value;
    var f := Spaces1(q, Keyword(q, Spaces1(q, c).value, kw2).value).value;
    TokenIsTimeToken(q, f);
  }

  lemma SliceChars(q: string, a: nat, b: nat)
    requires a <= b <= |q|
    ensures forall c :: c in q[a..b] ==> c in q
  {
    forall c | c in q[a..b] ensures c in q {
      var x :| a <= x < b && q[x] == c;
    }
  }

  /** Every character of a group is a character of the query. */
  lemma GroupsFromQuery(rule: Rule, q: string, i: nat)
    requires i <= |q| && MatchAt(rule, q, i).Some?
    ensures var g := MatchAt(rule, q, i).value;
      forall k, c :: 0 <= k < |g| && c in g[k] ==> c in q
  {
    match rule
    case FromTo => KeywordRangeFromQuery(q, i, "from", "to");
    case BetweenAnd => KeywordRangeFromQuery(q, i, "between", "and");
    case Dash =>
      var a := Token(q, i).value;
      SliceChars(q, i, a);
      var d := SpacesEnd(q, Keyword(q, SpacesEnd(q, a), "-").value);
      SliceChars(q, d, Token(q, d).value);
    case Mark =>
      var c := OptionalThe(q, Spaces1(q, Keyword(q, i, "at").value).value);
      SliceChars(q, c, Token(q, c).value);
    case FirstLast =>
      var a := if Keyword(q, i, "first").Some? then Keyword(q, i, "first").value else Keyword(q, i, "last").value;
      SliceChars(q, i, a);
      var b := Spaces1(q, a).value;
      SliceChars(q, b, Digits1(q, b).value);
  }

  lemma KeywordRangeFromQuery(q: string, i: nat, kw1: string, kw2: string)
    requires i <= |q| && KeywordRangeAt(q, i, kw1, kw2).Some?
    ensures var g := KeywordRangeAt(q, i, kw1, kw2).value;
      forall k, c :: 0 <= k < |g| && c in g[k] ==> c in q
  {
    var b := Spaces1(q, Keyword(q, i, kw1).value).value;
    var c := Token(q, b).value;
    SliceChars(q, b, c);
    var f := Spaces1(q, Keyword(q, Spaces1(q, c).value, kw2).value).value;
    SliceChars(q, f, Token(q, f).value);
  }

  // ---------------------------------------------------------------------------
  // A letter every match contains

  /** A character that every match of the pattern contains, in lower case: the
      "o" of `from`/`to`, the "b" of `between`, the dash, the "k" of `mark` and
      the "u" of `minutes`. */
  function Needed(rule: Rule): char {
    match rule
    case FromTo => 'o'
    case BetweenAnd => 'b'
    case Dash => '-'
    case Mark => 'k'
    case FirstLast => 'u'
  }

  lemma KeywordChar(q: string, i: nat, w: string, k: nat)
    requires i <= |q| && Keyword(q, i, w).Some? && k < |w|
    ensures LowerChar(q[i + k]) == w[k]
  {
    assert Lower(q[i..i + |w|])[k] == w[k];
  }

  /** A match of a pattern at i holds the pattern's needed character. */
  lemma MatchHoldsNeeded(rule: Rule, q: string, i: nat)
    requires i <= |q| && MatchAt(rule, q, i).Some?
    ensures exists k :: 0 <= k < |q| && LowerChar(q[k]) == Needed(rule)
  {
    var p := NeededAt(rule, q, i);
    assert LowerChar(q[p]) == Needed(rule);
  }

  /** Where the needed character of a match at i is. */
  lemma NeededAt(rule: Rule, q: string, i: nat) returns (p: nat)
    requires i <= |q| && MatchAt(rule, q, i).Some?
    ensures p < |q| && LowerChar(q[p]) == Needed(rule)
  {
    match rule
    case FromTo =>
      KeywordChar(q, i, "from", 2);
      p := i + 2;
    case BetweenAnd =>
      KeywordChar(q, i, "between", 0);
      p := i;
    case Dash => p := DashNeeded(q, i);
    case Mark => p := MarkNeeded(q, i);
    case FirstLast => p := FirstLastNeeded(q, i);
  }

  lemma DashNeeded(q: string, i: nat) returns (p: nat)
    requires i <= |q| && DashAt(q, i).Some?
    ensures p < |q| && q[p] == '-'
  {
    p := SpacesEnd(q, Token(q, i).value);
    KeywordChar(q, p, "-", 0);
  }

  lemma MarkNeeded(q: string, i: nat) returns (p: nat)
    requires i <= |q| && MarkAt(q, i).Some?
    ensures p < |q| && LowerChar(q[p]) == 'k'
  {
    var b := Spaces1(q, Keyword(q, i, "at").value).value;
    var d := Token(q, OptionalThe(q, b)).value;
    var f := Spaces1(q, OptionalMinute(q, d)).value;
    KeywordChar(q, f, "mark", 3);
    p := f + 3;
  }

  lemma FirstLastNeeded(q: string, i: nat) returns (p: nat)
    requires i <= |q| && FirstLastAt(q, i).Some?
    ensures p < |q| && LowerChar(q[p]) == 'u'
  {
    var a := if Keyword(q, i, "first").Some? then Keyword(q, i, "first").value else Keyword(q, i, "last").value;
    var c := Digits1(q, Spaces1(q, a).value).value;
    var d := Spaces1(q, c).value;
    KeywordChar(q, d, "minutes", 3);
    p := d + 3;
  }

  /** A query without the needed character of a pattern has no match of it. */
  lemma NoMatchWithoutNeeded(rule: Rule, q: string)
    requires forall k :: 0 <= k < |q| ==> LowerChar(q[k]) != Needed(rule)
    ensures Search(rule, q).None?
  {
    SearchFromLeftmost(rule, q, 0);
    if Search(rule, q).Some? {
      MatchHoldsNeeded(rule, q, Search(rule, q).value.at);
    }
  }

  // ---------------------------------------------------------------------------
  // IGNORECASE

  /** Every group lower-cased. */
  function LowerGroups(r: Option<seq<string>>): Option<seq<string>> {
    match r
    case None => None
    case Some(g) => Some(seq(|g|, k requires 0 <= k < |g| => Lower(g[k])))
  }

  lemma {:induction false} SpacesEndIgnoresCase(q: string, i: nat)
    requires i <= |q|
    ensures SpacesEnd(Lower(q), i) == SpacesEnd(q, i)
    decreases |q| - i
  {
    if i < |q| {
      SpacesEndIgnoresCase(q, i + 1);
    }
  }

  lemma {:induction false} DigitsEndIgnoresCase(q: string, i: nat)
    requires i <= |q|
    ensures DigitsEnd(Lower(q), i) == DigitsEnd(q, i)
    decreases |q| - i
  {
    if i < |q| {
      DigitsEndIgnoresCase(q, i + 1);
    }
  }

  lemma {:induction false} TokenEndIgnoresCase(q: string, i: nat, colons: nat)
    requires i <= |q|
    ensures TokenEnd(Lower(q), i, colons) == TokenEnd(q, i, colons)
    decreases |q| - i
  {
    if i < |q| {
      TokenEndIgnoresCase(q, i + 1, if q[i] == ':' then colons + 1 else colons);
    }
  }

  lemma KeywordIgnoresCase(q: string, i: nat, w: string)
    requires i <= |q|
    ensures Keyword(Lower(q), i, w) == Keyword(q, i, w)
  {
    if i + |w| <= |q| {
      LowerSlice(q, i, i + |w|);
      LowerIdempotent(q[i..i + |w|]);
    }
  }

  lemma LowerGroupsOne(x: string)
    ensures LowerGroups(Some([x])) == Some([Lower(x)])
  {
    var g := LowerGroups(Some([x])).value;
    assert |g| == 1 && g[0] == Lower(x);
    assert g == [Lower(x)];
  }

  lemma LowerGroupsTwo(x: string, y: string)
    ensures LowerGroups(Some([x, y])) == Some([Lower(x), Lower(y)])
  {
    var g := LowerGroups(Some([x, y])).value;
    assert |g| == 2 && g[0] == Lower(x) && g[1] == Lower(y);
    assert g == [Lower(x), Lower(y)];
  }

  lemma Spaces1IgnoresCase(q: string, i: nat)
    requires i <= |q|
    ensures Spaces1(Lower(q), i) == Spaces1(q, i)
  {
    SpacesEndIgnoresCase(q, i);
  }

  lemma Digits1IgnoresCase(q: string, i: nat)
    requires i <= |q|
    ensures Digits1(Lower(q), i) == Digits1(q, i)
  {
    DigitsEndIgnoresCase(q, i);
  }

  lemma TokenIgnoresCase(q: string, i: nat)
    requires i <= |q|
    ensures Token(Lower(q), i) == Token(q, i)
  {
    if i < |q| {
      TokenEndIgnoresCase(q, i + 1, 0);
    }
  }

  lemma KeywordRangeIgnoresCase(q: string, i: nat, kw1: string, kw2: string)
    requires i <= |q|
    ensures KeywordRangeAt(Lower(q), i, kw1, kw2) == LowerGroups(KeywordRangeAt(q, i, kw1, kw2))
  {
    KeywordIgnoresCase(q, i, kw1);
    if Keyword(q, i, kw1).None? { return; }
    var a := Keyword(q, i, kw1).value;
    Spaces1IgnoresCase(q, a);
    if Spaces1(q, a).None? { return; }
    var b := Spaces1(q, a).value;
    TokenIgnoresCase(q, b);
    if Token(q, b).None? { return; }
    var c := Token(q, b).value;
    Spaces1IgnoresCase(q, c);
    if Spaces1(q, c).None? { return; }
    var d := Spaces1(q, c).value;
    KeywordIgnoresCase(q, d, kw2);
    if Keyword(q, d, kw2).None? { return; }
    var e := Keyword(q, d, kw2).value;
    Spaces1IgnoresCase(q, e);
    if Spaces1(q, e).None? { return; }
    var f := Spaces1(q, e).value;
    TokenIgnoresCase(q, f);
    if Token(q, f).None? { return; }
    var g := Token(q, f).value;
    LowerSlice(q, b, c);
    LowerSlice(q, f, g);
    LowerGroupsTwo(q[b..c], q[f..g]);
    assert KeywordRangeAt(q, i, kw1, kw2) == Some([q[b..c], q[f..g]]);
    assert KeywordRangeAt(Lower(q), i, kw1, kw2) == Some([Lower(q)[b..c], Lower(q)[f..g]]);
  }

  lemma DashIgnoresCase(q: string, i: nat)
    requires i <= |q|
    ensures DashAt(Lower(q), i) == LowerGroups(DashAt(q, i))
  {
    TokenIgnoresCase(q, i);
    if Token(q, i).None? { return; }
    var a := Token(q, i).value;
    SpacesEndIgnoresCase(q, a);
    var b := SpacesEnd(q, a);
    KeywordIgnoresCase(q, b, "-");
    if Keyword(q, b, "-").None? { return; }
    var c := Keyword(q, b, "-").value;
    SpacesEndIgnoresCase(q, c);
    var d := SpacesEnd(q, c);
    TokenIgnoresCase(q, d);
    if Token(q, d).None? { return; }
    var e := Token(q, d).value;
    LowerSlice(q, i, a);
    LowerSlice(q, d, e);
    LowerGroupsTwo(q[i..a], q[d..e]);
    assert DashAt(q, i) == Some([q[i..a], q[d..e]]);
    assert DashAt(Lower(q), i) == Some([Lower(q)[i..a], Lower(q)[d..e]]);
  }

  lemma OptionalsIgnoreCase(q: string, i: nat)
    requires i <= |q|
    ensures OptionalThe(Lower(q), i) == OptionalThe(q, i)
    ensures OptionalMinute(Lower(q), i) == OptionalMinute(q, i)
  {
    KeywordIgnoresCase(q, i, "the");
    if Keyword(q, i, "the").Some? {
      Spaces1IgnoresCase(q, Keyword(q, i, "the").value);
    }
    Spaces1IgnoresCase(q, i);
    if Spaces1(q, i).Some? {
      KeywordIgnoresCase(q, Spaces1(q, i).value, "minute");
    }
  }

  lemma MarkIgnoresCase(q: string, i: nat)
    requires i <= |q|
    ensures MarkAt(Lower(q), i) == LowerGroups(MarkAt(q, i))
  {
    KeywordIgnoresCase(q, i, "at");
    if Keyword(q, i, "at").None? { return; }
    var a := Keyword(q, i, "at").value;
    Spaces1IgnoresCase(q, a);
    if Spaces1(q, a).None? { return; }
    var b := Spaces1(q, a).value;
    OptionalsIgnoreCase(q, b);
    var c := OptionalThe(q, b);
    TokenIgnoresCase(q, c);
    if Token(q, c).None? { return; }
    var d := Token(q, c).value;
    OptionalsIgnoreCase(q, d);
    var e := OptionalMinute(q, d);
    Spaces1IgnoresCase(q, e);
    if Spaces1(q, e).None? { return; }
    var f := Spaces1(q, e).value;
    KeywordIgnoresCase(q, f, "mark");
    if Keyword(q, f, "mark").None? { return; }
    LowerSlice(q, c, d);
    LowerGroupsOne(q[c..d]);
    assert MarkAt(q, i) == Some([q[c..d]]);
    assert MarkAt(Lower(q), i) == Some([Lower(q)[c..d]]);
  }

  lemma FirstLastIgnoresCase(q: string, i: nat)
    requires i <= |q|
    ensures FirstLastAt(Lower(q), i) == LowerGroups(FirstLastAt(q, i))
  {
    KeywordIgnoresCase(q, i, "first");
    KeywordIgnoresCase(q, i, "last");
    if Keyword(q, i, "first").None? && Keyword(q, i, "last").None? { return; }
    var a := if Keyword(q, i, "first").Some? then Keyword(q, i, "first").value else Keyword(q, i, "last").value;
    Spaces1IgnoresCase(q, a);
    if Spaces1(q, a).None? { return; }
    var b := Spaces1(q, a).value;
    Digits1IgnoresCase(q, b);
    if Digits1(q, b).None? { return; }
    var c := Digits1(q, b).value;
    Spaces1IgnoresCase(q, c);
    if Spaces1(q, c).None? { return; }
    var d := Spaces1(q, c).value;
    KeywordIgnoresCase(q, d, "minutes");
    if Keyword(q, d, "minutes").None? { return; }
    LowerSlice(q, i, a);
    LowerSlice(q, b, c);
    LowerGroupsTwo(q[i..a], q[b..c]);
    assert FirstLastAt(q, i) == Some([q[i..a], q[b..c]]);
    assert FirstLastAt(Lower(q), i) == Some([Lower(q)[i..a], Lower(q)[b..c]]);
  }

  /** IGNORECASE: matching the lower-cased query finds a match at the same place,
      with every group lower-cased, and no match where the query has none. */
  lemma MatchAtIgnoresCase(rule: Rule, q: string, i: nat)
    requires i <= |q|
    ensures MatchAt(rule, Lower(q), i) == LowerGroups(MatchAt(rule, q, i))
  {
    match rule
    case FromTo => KeywordRangeIgnoresCase(q, i, "from", "to");
    case BetweenAnd => KeywordRangeIgnoresCase(q, i, "between", "and");
    case Dash => DashIgnoresCase(q, i);
    case Mark => MarkIgnoresCase(q, i);
    case FirstLast => FirstLastIgnoresCase(q, i);
  }

  /** IGNORECASE for `re.search`: the leftmost match of the lower-cased query is
      at the same position, with its groups lower-cased. */
  lemma {:induction false} SearchFromIgnoresCase(rule: Rule, q: string, i: nat)
    requires i <= |q|
    ensures match SearchFrom(rule, q, i)
      case None => SearchFrom(rule, Lower(q), i).None?
      case Some(f) => SearchFrom(rule, Lower(q), i) == Some(Found(f.at, LowerGroups(Some(f.groups)).value))
    decreases |q| - i
  {
    MatchAtIgnoresCase(rule, q, i);
    if MatchAt(rule, q, i).None? && i < |q| {
      SearchFromIgnoresCase(rule, q, i + 1);
    }
  }
}
