/** Extracting import and export names from the text of a WIT document with one regular expression. */
module Wit {
  import opened Base

  datatype Match = Match(start: nat, isImport: bool, name: string, end: nat)

  predicate IsSpace(c: char) {
    c == ' ' || c == '\t' || c == '\n' || c == '\r' || c == '\U{000C}'
  }

  function Keyword(isImport: bool): string { if isImport then "import" else "export" }

  predicate KeywordAt(text: string, p: nat, isImport: bool) {
    p + 6 <= |text| && text[p..p + 6] == Keyword(isImport)
  }

  predicate AllSpaces(s: string) { forall i :: 0 <= i < |s| ==> IsSpace(s[i]) }

  predicate NoSemicolon(s: string) { forall i :: 0 <= i < |s| ==> s[i] != ';' }

  /**
   The regular expression's language at a position: a keyword, w white space characters,
   n characters other than semicolons, and a semicolon.
   */
  predicate InLanguage(text: string, p: nat, isImport: bool, w: nat, n: nat) {
    && KeywordAt(text, p, isImport) && w >= 1 && n >= 1
    && p + 6 + w + n < |text| && text[p + 6 + w + n] == ';'
    && AllSpaces(text[p + 6..p + 6 + w]) && NoSemicolon(text[p + 6 + w..p + 6 + w + n])
  }

  /** Length of the run of white space starting at p. */
  function SpaceRun(text: string, p: nat): (n: nat)
    requires p <= |text|
    ensures p + n <= |text| && AllSpaces(text[p..p + n]) && (p + n < |text| ==> !IsSpace(text[p + n]))
    decreases |text| - p
  {
    if p < |text| && IsSpace(text[p]) then
      var n := SpaceRun(text, p + 1);
      assert text[p..p + 1 + n] == [text[p]] + text[p + 1..p + 1 + n];
      1 + n
    else 0
  }

  /** The first semicolon at or after p, the length of the text if there is none. */
  function NextSemicolon(text: string, p: nat): (q: nat)
    requires p <= |text|
    ensures p <= q <= |text| && NoSemicolon(text[p..q]) && (q < |text| ==> text[q] == ';')
    decreases |text| - p
  {
    if p == |text| || text[p] == ';' then p
    else
      var q := NextSemicolon(text, p + 1);
      assert text[p..q] == [text[p]] + text[p + 1..q];
      q
  }

  /** The match at a position: white space is consumed greedily but gives back one character when nothing else is left for the name. */
  function MatchAt(text: string, p: nat): (r: Option<Match>)
    ensures r.Some? ==> r.value.start == p < r.value.end <= |text|
  {
    if !KeywordAt(text, p, true) && !KeywordAt(text, p, false) then None
    else
      var w := SpaceRun(text, p + 6);
      var q := NextSemicolon(text, p + 6 + w);
      if w == 0 || q == |text| then None
      else if q > p + 6 + w then Some(Match(p, KeywordAt(text, p, true), text[p + 6 + w..q], q + 1))
      else if w >= 2 then Some(Match(p, KeywordAt(text, p, true), text[q - 1..q], q + 1))
      else None
  }

  /** At every position the match that starts there, if any. */
  type Table = seq<Option<Match>>

  function MatchTable(text: string): (at: Table)
    ensures |at| == |text| && Forward(at)
  {
    seq(|text|, p requires 0 <= p < |text| => MatchAt(text, p))
  }

  predicate Forward(at: Table) {
    forall p :: 0 <= p < |at| && at[p].Some? ==> at[p].value.start == p < at[p].value.end <= |at|
  }

  /** All leftmost matches from p on, without overlap. */
  function FindAll(at: Table, p: nat): (ms: seq<Match>)
    requires Forward(at)
    decreases |at| - p
  {
    if p >= |at| then []
    else
      match at[p]
      case Some(m) => [m] + FindAll(at, m.end)
      case None => FindAll(at, p + 1)
  }

  function Names(ms: seq<Match>, isImport: bool): seq<string> {
    if ms == [] then []
    else Names(ms[..|ms| - 1], isImport) + (if ms[|ms| - 1].isImport == isImport then [ms[|ms| - 1].name] else [])
  }

  function Imports(text: string): seq<string> { Names(FindAll(MatchTable(text), 0), true) }

  function Exports(text: string): seq<string> { Names(FindAll(MatchTable(text), 0), false) }

  /** `ImportsExports`. */
  method ImportsExports(text: string) returns (imports: seq<string>, exports: seq<string>)
    ensures imports == Imports(text) && exports == Exports(text)
  {
    imports, exports := [], [];
    var matches := FindAll(MatchTable(text), 0);
    for i := 0 to |matches|
      invariant imports == Names(matches[..i], true) && exports == Names(matches[..i], false)
    {
      assert matches[..i + 1][..i] == matches[..i];
      if matches[i].isImport {
        imports := imports + [matches[i].name];
      } else {
        exports := exports + [matches[i].name];
      }
    }
    assert matches[..|matches|] == matches;
  }

  // ---------------------------------------------------------------- the regular expression's meaning

  lemma SpacesAt(text: string, lo: nat, hi: nat)
    requires lo <= hi <= |text| && AllSpaces(text[lo..hi])
    ensures forall k :: lo <= k < hi ==> IsSpace(text[k])
  {
    forall k | lo <= k < hi ensures IsSpace(text[k]) {
      assert text[k] == text[lo..hi][k - lo];
    }
  }

  lemma NoSemicolonAt(text: string, lo: nat, hi: nat)
    requires lo <= hi <= |text| && NoSemicolon(text[lo..hi])
    ensures forall k :: lo <= k < hi ==> text[k] != ';'
  {
    forall k | lo <= k < hi ensures text[k] != ';' {
      assert text[k] == text[lo..hi][k - lo];
    }
  }

  /** A word of the language ends at the first semicolon after the white space. */
  lemma LanguageShape(text: string, p: nat, isImport: bool, w: nat, n: nat)
    requires InLanguage(text, p, isImport, w, n)
    ensures w <= SpaceRun(text, p + 6)
    ensures NextSemicolon(text, p + 6 + SpaceRun(text, p + 6)) == p + 6 + w + n
  {
    var run := SpaceRun(text, p + 6);
    var q := NextSemicolon(text, p + 6 + run);
    SpacesAt(text, p + 6, p + 6 + w);
    SpacesAt(text, p + 6, p + 6 + run);
    NoSemicolonAt(text, p + 6 + w, p + 6 + w + n);
    NoSemicolonAt(text, p + 6 + run, q);
  }

  /** The match and the word of the language it stands for. */
  predicate IsWord(text: string, p: nat, m: Match) {
    && m.start == p && m.name != "" && p + 7 + |m.name| < m.end <= |text|
    && InLanguage(text, p, m.isImport, m.end - 1 - |m.name| - p - 6, |m.name|)
    && m.name == text[m.end - 1 - |m.name|..m.end - 1]
  }

  lemma KeywordsDiffer(text: string, p: nat)
    ensures !(KeywordAt(text, p, true) && KeywordAt(text, p, false))
  {
    assert Keyword(true)[0] != Keyword(false)[0];
  }

  /** Greedy white space, then the name up to the semicolon. */
  lemma GreedyWord(text: string, p: nat, isImport: bool, b: nat, q: nat)
    requires KeywordAt(text, p, isImport) && p + 6 < b < q < |text| && text[q] == ';'
    requires AllSpaces(text[p + 6..b]) && NoSemicolon(text[b..q])
    ensures IsWord(text, p, Match(p, isImport, text[b..q], q + 1))
  {
    assert |text[b..q]| == q - b && p + 6 + (b - p - 6) == b && b + (q - b) == q;
  }

  /** The semicolon follows the white space, whose last character becomes the name. */
  lemma GivenBackWord(text: string, p: nat, isImport: bool, q: nat)
    requires KeywordAt(text, p, isImport) && p + 7 < q < |text| && text[q] == ';'
    requires AllSpaces(text[p + 6..q])
    ensures IsWord(text, p, Match(p, isImport, text[q - 1..q], q + 1))
  {
    SpacesAt(text, p + 6, q);
    assert IsSpace(text[q - 1]) && text[q - 1..q] == [text[q - 1]];
    GreedyWord(text, p, isImport, q - 1, q);
  }

  /** What a match is made of: white space up to b, a semicolon at q, and the name from lo on. */
  lemma MatchParts(text: string, p: nat) returns (isImport: bool, b: nat, lo: nat, q: nat)
    requires MatchAt(text, p).Some?
    ensures KeywordAt(text, p, isImport) && p + 6 < lo <= b <= q < |text| && text[q] == ';'
    ensures AllSpaces(text[p + 6..b]) && NoSemicolon(text[b..q]) && lo == (if b < q then b else q - 1)
    ensures MatchAt(text, p) == Some(Match(p, isImport, text[lo..q], q + 1))
  {
    isImport := KeywordAt(text, p, true);
    b := p + 6 + SpaceRun(text, p + 6);
    q := NextSemicolon(text, b);
    lo := if b < q then b else q - 1;
  }

  lemma MatchIsWord(text: string, p: nat)
    requires MatchAt(text, p).Some?
    ensures IsWord(text, p, MatchAt(text, p).value)
  {
    var isImport, b, lo, q := MatchParts(text, p);
    if b < q {
      GreedyWord(text, p, isImport, b, q);
    } else {
      GivenBackWord(text, p, isImport, q);
    }
  }

  lemma WordIsMatched(text: string, p: nat, isImport: bool, w: nat, n: nat)
    requires InLanguage(text, p, isImport, w, n)
    ensures MatchAt(text, p).Some?
    ensures var m := MatchAt(text, p).value;
            m.isImport == isImport && p + 6 + w + |m.name| <= m.end - 1 && m.end == p + 6 + w + n + 1
  {
    LanguageShape(text, p, isImport, w, n);
    KeywordsDiffer(text, p);
  }

  /**
   A match is found at a position exactly when a word of the language starts there; it is
   the word with the longest white space, and its name is what follows.
   */
  lemma MatchIsLongestWord(text: string, p: nat)
    ensures MatchAt(text, p).Some? <==> exists isImport, w: nat, n: nat :: InLanguage(text, p, isImport, w, n)
    ensures MatchAt(text, p).Some? ==>
              && IsWord(text, p, MatchAt(text, p).value)
              && forall isImport, w: nat, n: nat :: InLanguage(text, p, isImport, w, n) ==>
                   isImport == MatchAt(text, p).value.isImport && n >= |MatchAt(text, p).value.name|
  {
    forall isImport, w: nat, n: nat | InLanguage(text, p, isImport, w, n)
      ensures MatchAt(text, p).Some? && isImport == MatchAt(text, p).value.isImport && n >= |MatchAt(text, p).value.name|
    {
      WordIsMatched(text, p, isImport, w, n);
    }
    if MatchAt(text, p).Some? {
      MatchIsWord(text, p);
    }
  }

  /** The list has only matches of the table, in order and apart. */
  predicate Found(at: Table, p: nat, ms: seq<Match>) {
    && (forall i :: 0 <= i < |ms| ==> p <= ms[i].start < |at| && at[ms[i].start] == Some(ms[i]))
    && (forall i, j :: 0 <= i < j < |ms| ==> ms[i].end <= ms[j].start)
  }

  predicate CoveredBy(ms: seq<Match>, x: nat) {
    exists i :: 0 <= i < |ms| && ms[i].start <= x < ms[i].end
  }

  /** No position from p on that is outside the listed matches starts a match. */
  predicate Covered(at: Table, p: nat, ms: seq<Match>) {
    forall x: nat :: p <= x < |at| && at[x].Some? ==> CoveredBy(ms, x)
  }

  lemma CoveredCons(at: Table, p: nat, m: Match, rest: seq<Match>)
    requires Forward(at) && p < |at| && at[p] == Some(m) && Covered(at, m.end, rest)
    ensures Covered(at, p, [m] + rest)
  {
    var ms := [m] + rest;
    forall x: nat | p <= x < |at| && at[x].Some? ensures CoveredBy(ms, x) {
      if x < m.end {
        assert ms[0].start <= x < ms[0].end;
      } else {
        assert CoveredBy(rest, x);
        var i :| 0 <= i < |rest| && rest[i].start <= x < rest[i].end;
        assert ms[i + 1] == rest[i];
      }
    }
  }

  lemma {:induction false} FindAllCovers(at: Table, p: nat)
    requires Forward(at)
    ensures Covered(at, p, FindAll(at, p))
    decreases |at| - p
  {
    if p < |at| {
      match at[p]
      case Some(m) =>
        FindAllCovers(at, m.end);
        CoveredCons(at, p, m, FindAll(at, m.end));
      case None =>
        FindAllCovers(at, p + 1);
    }
  }

  lemma FoundCons(at: Table, p: nat, m: Match, rest: seq<Match>)
    requires Forward(at) && p < |at| && at[p] == Some(m) && Found(at, m.end, rest)
    ensures Found(at, p, [m] + rest)
  {
    var ms := [m] + rest;
    assert m.start == p < m.end;
    assert forall i :: 0 < i < |ms| ==> ms[i] == rest[i - 1];
  }

  lemma FoundBefore(at: Table, p: nat, ms: seq<Match>)
    requires Found(at, p + 1, ms)
    ensures Found(at, p, ms)
  {}

  lemma {:induction false} FindAllFinds(at: Table, p: nat)
    requires Forward(at)
    ensures Found(at, p, FindAll(at, p))
    decreases |at| - p
  {
    if p < |at| {
      match at[p]
      case Some(m) =>
        FindAllFinds(at, m.end);
        FoundCons(at, p, m, FindAll(at, m.end));
      case None =>
        FindAllFinds(at, p + 1);
        FoundBefore(at, p, FindAll(at, p + 1));
    }
  }

  /** For every text the scan finds exactly the leftmost matches of the regular expression. */
  lemma ScanIsComplete(text: string)
    ensures Found(MatchTable(text), 0, FindAll(MatchTable(text), 0))
    ensures Covered(MatchTable(text), 0, FindAll(MatchTable(text), 0))
  {
    FindAllFinds(MatchTable(text), 0);
    FindAllCovers(MatchTable(text), 0);
  }

  function Semicolons(text: string): nat {
    if text == "" then 0 else (if text[0] == ';' then 1 else 0) + Semicolons(text[1..])
  }

  lemma {:induction false} SemicolonsFrom(text: string, p: nat, q: nat)
    requires p <= q < |text| && text[q] == ';'
    ensures Semicolons(text[p..]) >= 1 + Semicolons(text[q + 1..])
    decreases q - p
  {
    assert text[p..][1..] == text[p + 1..];
    if p < q {
      SemicolonsFrom(text, p + 1, q);
    }
  }

  /** Every match in the table ends with a semicolon of the text and has a proper name. */
  ghost predicate Named(text: string, at: Table) {
    && |at| == |text| && Forward(at)
    && forall p :: 0 <= p < |at| && at[p].Some? ==>
         text[at[p].value.end - 1] == ';' && at[p].value.name != "" && NoSemicolon(at[p].value.name)
  }

  lemma {:induction false} NamesInTable(text: string, at: Table, p: nat)
    requires Named(text, at) && p <= |text|
    ensures |FindAll(at, p)| <= Semicolons(text[p..])
    ensures forall m :: m in FindAll(at, p) ==> m.name != "" && NoSemicolon(m.name)
    decreases |text| - p
  {
    if p < |text| {
      match at[p]
      case Some(m) =>
        NamesInTable(text, at, m.end);
        SemicolonsFrom(text, p, m.end - 1);
      case None =>
        assert text[p..][1..] == text[p + 1..];
        NamesInTable(text, at, p + 1);
    }
  }

  lemma TableIsNamed(text: string)
    ensures Named(text, MatchTable(text))
  {
    var at := MatchTable(text);
    forall p | 0 <= p < |at| && at[p].Some?
      ensures text[at[p].value.end - 1] == ';' && at[p].value.name != "" && NoSemicolon(at[p].value.name)
    {
      MatchIsWord(text, p);
    }
  }

  lemma {:induction false} NamesAmong(ms: seq<Match>, isImport: bool)
    ensures |Names(ms, true)| + |Names(ms, false)| == |ms|
    ensures forall n :: n in Names(ms, isImport) ==> exists i :: 0 <= i < |ms| && ms[i].name == n
    decreases |ms|
  {
    if ms != [] {
      var init := ms[..|ms| - 1];
      NamesAmong(init, isImport);
      forall n | n in Names(ms, isImport) ensures exists i :: 0 <= i < |ms| && ms[i].name == n {
        if n in Names(init, isImport) {
          var i :| 0 <= i < |init| && init[i].name == n;
          assert ms[i].name == n;
        } else {
          assert ms[|ms| - 1].name == n;
        }
      }
    }
  }

  /**
   For every text there are at most as many imports and exports as semicolons, and no
   name is empty or contains a semicolon.
   */
  lemma NamesAreNames(text: string)
    ensures |Imports(text)| + |Exports(text)| <= Semicolons(text)
    ensures forall n :: n in Imports(text) || n in Exports(text) ==> n != "" && NoSemicolon(n)
  {
    var ms := FindAll(MatchTable(text), 0);
    TableIsNamed(text);
    NamesInTable(text, MatchTable(text), 0);
    assert text[0..] == text;
    NamesAmong(ms, true);
    NamesAmong(ms, false);
    forall n | n in Imports(text) || n in Exports(text) ensures n != "" && NoSemicolon(n) {
      var i :| 0 <= i < |ms| && ms[i].name == n;
      assert ms[i] in ms;
    }
  }

  // ---------------------------------------------------------------- round trip

  /** One printed line: indentation, keyword, white space, name, semicolon. */
  datatype Item = Item(gap: string, isImport: bool, space: string, name: string)

  /** Gap and space consist of blanks, tabs, line feeds, form feeds and carriage returns; the name has no semicolon and no such start. */
  predicate Printable(i: Item) {
    && (forall k :: 0 <= k < |i.gap| ==> i.gap[k] in WHITE_SPACE) && (forall k :: 0 <= k < |i.space| ==> i.space[k] in WHITE_SPACE)
    && i.space != "" && i.name != "" && (forall k :: 0 <= k < |i.name| ==> i.name[k] != ';') && i.name[0] !in WHITE_SPACE
  }

  const WHITE_SPACE := [' ', '\t', '\n', '\U{000C}', '\r']

  function PrintItem(i: Item): string { i.gap + (if i.isImport then "import" else "export") + i.space + i.name + ";" }

  function Print(items: seq<Item>): string {
    if items == [] then "" else PrintItem(items[0]) + Print(items[1..])
  }

  /** What a scan should find for the items, printed from position p on. */
  function Expected(items: seq<Item>, p: nat): seq<Match> {
    if items == [] then []
    else
      var i := items[0];
      var start, end := p + |i.gap|, p + |PrintItem(i)|;
      [Match(start, i.isImport, i.name, end)] + Expected(items[1..], end)
  }

  lemma {:induction false} SkipGap(at: Table, p: nat, n: nat)
    requires Forward(at) && p + n <= |at| && forall k :: p <= k < p + n ==> at[k].None?
    ensures FindAll(at, p) == FindAll(at, p + n)
    decreases n
  {
    if n > 0 {
      SkipGap(at, p + 1, n - 1);
    }
  }

  /** No keyword starts with white space. */
  lemma SpaceNoMatch(text: string, p: nat)
    requires p < |text| && IsSpace(text[p])
    ensures MatchAt(text, p).None?
  {
    assert p + 6 <= |text| ==> text[p..p + 6][0] == text[p];
  }

  lemma Within(text: string, p: nat, line: string, lo: nat, hi: nat)
    requires p + |line| <= |text| && text[p..p + |line|] == line && lo <= hi <= |line|
    ensures text[p + lo..p + hi] == line[lo..hi]
  {
    forall k | lo <= k < hi ensures text[p + k] == line[k] {
      assert text[p + k] == text[p..p + |line|][k];
    }
    assert forall k :: 0 <= k < hi - lo ==> text[p + lo..p + hi][k] == text[p + (lo + k)] && line[lo..hi][k] == line[lo + k];
  }

  /** Where the parts of a printed line are. */
  lemma LineParts(i: Item)
    ensures var line, s := PrintItem(i), |i.gap|;
            var b := s + 6 + |i.space|;
            && |line| == b + |i.name| + 1
            && line[..s] == i.gap && line[s..s + 6] == Keyword(i.isImport)
            && line[s + 6..b] == i.space && line[b..b + |i.name|] == i.name && line[b + |i.name|..] == ";"
  {
    assert |Keyword(i.isImport)| == 6;
  }

  /** A printed line denotes a word of the language at its keyword. */
  lemma LineIsWord(text: string, p: nat, i: Item)
    requires Printable(i) && p + |PrintItem(i)| <= |text| && text[p..p + |PrintItem(i)|] == PrintItem(i)
    ensures text[p..p + |i.gap|] == i.gap
    ensures InLanguage(text, p + |i.gap|, i.isImport, |i.space|, |i.name|)
    ensures var b := p + |i.gap| + 6 + |i.space|;
            text[b..b + |i.name|] == i.name && text[b] == i.name[0] && b + |i.name| + 1 == p + |PrintItem(i)|
  {
    var line, s := PrintItem(i), |i.gap|;
    var b := s + 6 + |i.space|;
    LineParts(i);
    Within(text, p, line, 0, s);
    Within(text, p, line, s, s + 6);
    Within(text, p, line, s + 6, b);
    Within(text, p, line, b, b + |i.name|);
    Within(text, p, line, b + |i.name|, |line|);
    assert text[p + b + |i.name|] == text[p + b + |i.name|..p + |line|][0];
    assert text[p + b] == text[p + b..p + b + |i.name|][0];
  }

  lemma ItemMatches(text: string, p: nat, i: Item)
    requires Printable(i) && p + |PrintItem(i)| <= |text| && text[p..p + |PrintItem(i)|] == PrintItem(i)
    ensures MatchAt(text, p + |i.gap|) == Some(Match(p + |i.gap|, i.isImport, i.name, p + |PrintItem(i)|))
  {
    LineIsWord(text, p, i);
    WordAlone(text, p + |i.gap|, i.isImport, |i.space|, |i.name|);
  }

  /** A word whose name does not start with white space is the match. */
  lemma WordAlone(text: string, s: nat, isImport: bool, w: nat, n: nat)
    requires InLanguage(text, s, isImport, w, n) && !IsSpace(text[s + 6 + w])
    ensures MatchAt(text, s) == Some(Match(s, isImport, text[s + 6 + w..s + 6 + w + n], s + 6 + w + n + 1))
  {
    LanguageShape(text, s, isImport, w, n);
    var run := SpaceRun(text, s + 6);
    SpacesAt(text, s + 6, s + 6 + run);
    assert !(s + 6 <= s + 6 + w < s + 6 + run);
    assert run == w;
    KeywordsDiffer(text, s);
  }

  /** The table knows about a printed item: nothing in its gap, the item at its keyword. */
  ghost predicate Shows(at: Table, p: nat, i: Item) {
    && p + |PrintItem(i)| <= |at|
    && (forall k :: p <= k < p + |i.gap| ==> at[k].None?)
    && at[p + |i.gap|] == Some(Match(p + |i.gap|, i.isImport, i.name, p + |PrintItem(i)|))
  }

  lemma ItemShows(text: string, p: nat, i: Item)
    requires Printable(i) && p + |PrintItem(i)| <= |text| && text[p..p + |PrintItem(i)|] == PrintItem(i)
    ensures Shows(MatchTable(text), p, i)
  {
    ItemMatches(text, p, i);
    LineIsWord(text, p, i);
    SpacesAt(text, p, p + |i.gap|);
    forall k | p <= k < p + |i.gap| ensures MatchAt(text, k).None? {
      SpaceNoMatch(text, k);
    }
  }

  lemma FindItem(at: Table, p: nat, i: Item) returns (end: nat, m: Match)
    requires Forward(at) && Shows(at, p, i)
    ensures end == p + |PrintItem(i)| && m == Match(p + |i.gap|, i.isImport, i.name, end)
    ensures FindAll(at, p) == [m] + FindAll(at, end)
  {
    end := p + |PrintItem(i)|;
    m := Match(p + |i.gap|, i.isImport, i.name, end);
    SkipGap(at, p, |i.gap|);
  }

  lemma PrintedFirst(text: string, p: nat, items: seq<Item>) returns (n: nat)
    requires items != [] && p <= |text| && text[p..] == Print(items)
    ensures n == |PrintItem(items[0])| && p + n <= |text|
    ensures text[p..p + n] == PrintItem(items[0]) && text[p + n..] == Print(items[1..])
  {
    n := |PrintItem(items[0])|;
    var line, rest := PrintItem(items[0]), Print(items[1..]);
    assert |text[p..]| == |line| + |rest|;
    assert text[p..p + n] == text[p..][..n] == (line + rest)[..n] == line;
    assert text[p + n..] == text[p..][n..] == (line + rest)[n..] == rest;
  }

  lemma ExpectedCons(items: seq<Item>, p: nat)
    requires items != []
    ensures var end := p + |PrintItem(items[0])|;
            Expected(items, p) == [Match(p + |items[0].gap|, items[0].isImport, items[0].name, end)] + Expected(items[1..], end)
  {}

  ghost predicate ShowsAll(at: Table, p: nat, items: seq<Item>)
    decreases |items|
  {
    if items == [] then p == |at|
    else Shows(at, p, items[0]) && ShowsAll(at, p + |PrintItem(items[0])|, items[1..])
  }

  lemma {:induction false} TableShowsAll(text: string, p: nat, items: seq<Item>)
    requires forall i :: 0 <= i < |items| ==> Printable(items[i])
    requires p <= |text| && text[p..] == Print(items)
    ensures ShowsAll(MatchTable(text), p, items)
    decreases |items|
  {
    if items != [] {
      var n := PrintedFirst(text, p, items);
      ItemShows(text, p, items[0]);
      TableShowsAll(text, p + n, items[1..]);
    }
  }

  lemma ShownFirst(at: Table, p: nat, items: seq<Item>)
    requires items != [] && ShowsAll(at, p, items)
    ensures Shows(at, p, items[0]) && ShowsAll(at, p + |PrintItem(items[0])|, items[1..])
  {}

  lemma {:induction false} FindShown(at: Table, p: nat, items: seq<Item>)
    requires Forward(at) && ShowsAll(at, p, items)
    ensures FindAll(at, p) == Expected(items, p)
    decreases |items|
  {
    if items == [] {
      assert p == |at|;
    } else {
      ShownFirst(at, p, items);
      var end, m := FindItem(at, p, items[0]);
      FindShown(at, end, items[1..]);
      ExpectedCons(items, p);
    }
  }

  function ItemNames(items: seq<Item>, isImport: bool): seq<string> {
    if items == [] then [] else (if items[0].isImport == isImport then [items[0].name] else []) + ItemNames(items[1..], isImport)
  }

  lemma {:induction false} NamesFromFront(ms: seq<Match>, isImport: bool)
    requires ms != []
    ensures Names(ms, isImport) == (if ms[0].isImport == isImport then [ms[0].name] else []) + Names(ms[1..], isImport)
    decreases |ms|
  {
    if |ms| > 1 {
      NamesFromFront(ms[..|ms| - 1], isImport);
      assert ms[..|ms| - 1][1..] == ms[1..][..|ms| - 2];
    }
  }

  lemma {:induction false} ExpectedNames(items: seq<Item>, p: nat, isImport: bool)
    ensures Names(Expected(items, p), isImport) == ItemNames(items, isImport)
    decreases |items|
  {
    if items != [] {
      var ms, end := Expected(items, p), p + |PrintItem(items[0])|;
      var rest := Expected(items[1..], end);
      assert ms[1..] == rest;
      NamesFromFront(ms, isImport);
      ExpectedNames(items[1..], end, isImport);
    }
  }

  /** Scanning a printed list of imports and exports gives them back, each kind in order. */
  lemma PrintScanRoundTrip(items: seq<Item>)
    requires forall i :: 0 <= i < |items| ==> Printable(items[i])
    ensures Imports(Print(items)) == ItemNames(items, true)
    ensures Exports(Print(items)) == ItemNames(items, false)
  {
    var text := Print(items);
    assert text[0..] == text;
    TableShowsAll(text, 0, items);
    FindShown(MatchTable(text), 0, items);
    ExpectedNames(items, 0, true);
    ExpectedNames(items, 0, false);
  }
}
