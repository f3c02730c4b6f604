/**
 The company and title normalisers of backend/app/scraping/normalization.py, as the content key uses
 them. Unicode is unseen: NFKD folding with lower-casing is one function, and the regex class \w another.
 */
module Normalization {
  import opened Text

  datatype Unicode = Unicode(fold: string -> string, isWordChar: char -> bool)

  const PUNCTUATION: string := ".,;!?\"'`[]{}()|/\\"

  const COMPANY_SUFFIXES: set<string> := {
    "inc", "corp", "corporation", "llc", "ltd", "limited", "gmbh", "ag", "sa", "plc", "co", "com", "company",
    "group", "holdings", "technologies", "tech", "labs", "software", "systems", "solutions", "services"}

  const COMPANY_ALIASES: map<string, string> := map[
    "alphabet" := "google", "meta platforms" := "meta", "microsoft corporation" := "microsoft",
    "amazon.com" := "amazon", "ibm corporation" := "ibm"]

  // Each expansion is the list of its words, which the joined title separates by single spaces.
  const TITLE_ABBREVIATIONS: map<string, seq<string>> := map[
    "sr" := ["senior"], "sr." := ["senior"], "jr" := ["junior"], "jr." := ["junior"],
    "ml" := ["machine", "learning"], "eng" := ["engineer"], "eng." := ["engineer"], "engr" := ["engineer"],
    "mgr" := ["manager"], "dir" := ["director"], "vp" := ["vice", "president"],
    "svp" := ["senior", "vice", "president"], "evp" := ["executive", "vice", "president"],
    "swe" := ["software", "engineer"], "sde" := ["software", "development", "engineer"],
    "pm" := ["product", "manager"], "tpm" := ["technical", "program", "manager"],
    "ds" := ["data", "scientist"], "de" := ["data", "engineer"], "qa" := ["quality", "assurance"],
    "ui" := ["user", "interface"], "ux" := ["user", "experience"], "fe" := ["frontend"], "be" := ["backend"],
    "fs" := ["fullstack"], "devops" := ["development", "operations"], "ops" := ["operations"],
    "admin" := ["administrator"], "assoc" := ["associate"], "asst" := ["assistant"], "dept" := ["department"],
    "exec" := ["executive"], "hr" := ["human", "resources"], "it" := ["information", "technology"]]

  // The alternatives of LEVEL_PATTERNS in the order the regex engine tries them.
  const LEVELS: seq<string> := [
    "iii", "ii", "i", "iv", "v", "1", "2", "3", "4", "5", "staff", "principal", "lead", "senior", "junior",
    "entry-level", "entry level", "entrylevel", "intern", "mid-level", "mid level", "midlevel"]

  function Depunctuate(s: string): string {
    seq(|s|, i requires 0 <= i < |s| => if s[i] in PUNCTUATION then ' ' else s[i])
  }

  function Clean(u: Unicode, s: string): string {
    Strip(CollapseSpaces(Depunctuate(u.fold(s))))
  }

  // ----- Companies -----

  function WithoutSuffixes(tokens: seq<string>): seq<string> {
    if tokens != [] && tokens[|tokens| - 1] in COMPANY_SUFFIXES then WithoutSuffixes(tokens[..|tokens| - 1])
    else tokens
  }

  function Canonical(name: string): string {
    if name in COMPANY_ALIASES then COMPANY_ALIASES[name] else name
  }

  function CompanyOfTokens(tokens: seq<string>): string {
    Canonical(Join(WithoutSuffixes(tokens)))
  }

  function Company(u: Unicode, name: string): string {
    if name == "" then "" else CompanyOfTokens(SplitWords(Clean(u, name)))
  }

  method NormalizeCompany(u: Unicode, name: string) returns (result: string)
    ensures result == Company(u, name)
  {
    if name == "" {
      return "";
    }
    var tokens := SplitWords(Clean(u, name));
    while tokens != [] && tokens[|tokens| - 1] in COMPANY_SUFFIXES
      invariant WithoutSuffixes(tokens) == WithoutSuffixes(SplitWords(Clean(u, name)))
    {
      tokens := tokens[..|tokens| - 1];
    }
    result := Canonical(Join(tokens));
  }

  // ----- Titles -----

  function Expanded(tokens: seq<string>): seq<string> {
    if tokens == [] then []
    else
      (if tokens[0] in TITLE_ABBREVIATIONS then TITLE_ABBREVIATIONS[tokens[0]] else [tokens[0]])
      + Expanded(tokens[1..])
  }

  function Title(u: Unicode, title: string): string {
    if title == "" then "" else Join(Expanded(SplitWords(Clean(u, title))))
  }

  // \b: exactly one side of the position is a word character.
  predicate AtBoundary(u: Unicode, s: string, p: nat)
    requires p <= |s|
  {
    (p > 0 && u.isWordChar(s[p - 1])) != (p < |s| && u.isWordChar(s[p]))
  }

  predicate MatchesAt(u: Unicode, s: string, p: nat, level: string)
    requires p <= |s|
  {
    && p + |level| <= |s| && s[p..p + |level|] == level
    && AtBoundary(u, s, p) && AtBoundary(u, s, p + |level|)
  }

  // The length of the first alternative, from the k-th on, that matches at `p`; zero for none.
  function LevelAt(u: Unicode, s: string, p: nat, k: nat): (n: nat)
    requires p <= |s| && k <= |LEVELS|
    ensures p + n <= |s|
    decreases |LEVELS| - k
  {
    if k == |LEVELS| then 0
    else if MatchesAt(u, s, p, LEVELS[k]) then |LEVELS[k]|
    else LevelAt(u, s, p, k + 1)
  }

  // LEVEL_PATTERNS.sub("", s), from position `p` on.
  function WithoutLevels(u: Unicode, s: string, p: nat): (t: string)
    requires p <= |s|
    ensures forall c :: c in t ==> c in s
    decreases |s| - p
  {
    if p == |s| then ""
    else
      var n := LevelAt(u, s, p, 0);
      if n > 0 then WithoutLevels(u, s, p + n) else [s[p]] + WithoutLevels(u, s, p + 1)
  }

  function StrippedTitle(u: Unicode, title: string): string {
    Strip(CollapseSpaces(WithoutLevels(u, Title(u, title), 0)))
  }

  // ----- The content key -----

  function ContentString(u: Unicode, title: string, company: string): string {
    StrippedTitle(u, title) + "|" + Company(u, company)
  }

  lemma CleanHasNoBar(u: Unicode, s: string)
    ensures '|' !in Clean(u, s)
  {
    var d := Depunctuate(u.fold(s));
    assert '|' !in d by {
      assert '|' == PUNCTUATION[14];
    }
  }

  // A run of characters that are neither spaces nor punctuation.
  ghost predicate IsUnparted(w: string) {
    forall c :: c in w ==> !IsSpace(c) && c !in PUNCTUATION
  }

  lemma WordsOfClean(u: Unicode, s: string)
    ensures SplitWords(Clean(u, s)) == SplitWords(Depunctuate(u.fold(s)))
  {
    hide PUNCTUATION;
    TidiedIsJoined(Depunctuate(u.fold(s)));
    SplitOfJoin(SplitWords(Depunctuate(u.fold(s))));
  }

  // The runs that a text starts with: at most one, since it has nothing that parts it.
  ghost function RunsOf(w: string): seq<string> {
    if w == "" then [] else [w]
  }

  lemma UnpartedStays(w: string)
    requires IsUnparted(w)
    ensures Depunctuate(w) == w && SplitWords(w) == RunsOf(w)
  {
    SplitOfOne(w);
  }

  lemma RunThenRest(w: string, c: char, rest: string)
    requires IsUnparted(w) && (IsSpace(c) || c in PUNCTUATION)
    ensures SplitWords(Depunctuate(w + [c] + rest)) == RunsOf(w) + SplitWords(Depunctuate(rest))
  {
    hide PUNCTUATION, IsSpace, SplitWords;
    var gap := if c in PUNCTUATION then ' ' else c;
    assert IsSpace(gap) by { SpaceSeparates(); }
    UnpartedStays(w);
    assert Depunctuate(w + [c] + rest) == w + ([gap] + Depunctuate(rest));
    SplitAfterGap(gap, Depunctuate(rest));
    if w != "" {
      SplitFirstWord(w, [gap] + Depunctuate(rest));
    } else {
      assert w + ([gap] + Depunctuate(rest)) == [gap] + Depunctuate(rest);
    }
  }

  lemma SpaceSeparates()
    ensures IsSpace(' ')
  {
  }

  lemma SplitAfterGap(gap: char, rest: string)
    requires IsSpace(gap)
    ensures SplitWords([gap] + rest) == SplitWords(rest)
  {
    assert ([gap] + rest)[1..] == rest;
  }

  /**
   The words of a cleaned text are the runs between spaces and punctuation: of a text that is one run, that run; of one
   that goes on after the first space or punctuation, the run before it and the words of what follows.
   */
  lemma CleanedWordsAreTheRuns(u: Unicode, s: string, w: string, c: char, t: string)
    requires IsUnparted(w) && (IsSpace(c) || c in PUNCTUATION)
    ensures u.fold(s) == w ==> SplitWords(Clean(u, s)) == RunsOf(w)
    ensures u.fold(s) == w + [c] + u.fold(t) ==> SplitWords(Clean(u, s)) == RunsOf(w) + SplitWords(Clean(u, t))
  {
    hide PUNCTUATION, Clean, SplitWords, IsUnparted, IsSpace, Depunctuate;
    WordsOfClean(u, s);
    WordsOfClean(u, t);
    UnpartedStays(w);
    RunThenRest(w, c, u.fold(t));
  }

  // The words that occur in an expansion.
  const EXPANSION_WORDS: set<string> := {
    "senior", "junior", "machine", "learning", "engineer", "manager", "director", "vice", "president",
    "executive", "software", "development", "product", "technical", "program", "data", "scientist", "quality",
    "assurance", "user", "interface", "experience", "frontend", "backend", "fullstack", "operations",
    "administrator", "associate", "assistant", "department", "human", "resources", "information", "technology"}

  lemma ExpansionsAreListed(token: string, w: string)
    requires token in TITLE_ABBREVIATIONS && w in TITLE_ABBREVIATIONS[token]
    ensures w in EXPANSION_WORDS
  {
  }

  lemma ExpansionWordsAreLetters(w: string)
    requires w in EXPANSION_WORDS
    ensures |w| >= 4 && forall c :: c in w ==> 'a' <= c <= 'z'
  {
  }

  lemma {:induction false} ExpandedHasNoBar(tokens: seq<string>)
    requires forall t :: t in tokens ==> '|' !in t
    ensures forall t :: t in Expanded(tokens) ==> '|' !in t
  {
    hide TITLE_ABBREVIATIONS, EXPANSION_WORDS;
    if tokens != [] {
      ExpandedHasNoBar(tokens[1..]);
      forall w | tokens[0] in TITLE_ABBREVIATIONS && w in TITLE_ABBREVIATIONS[tokens[0]]
        ensures '|' !in w
      {
        ExpansionsAreListed(tokens[0], w);
        ExpansionWordsAreLetters(w);
      }
    }
  }

  lemma TitleHasNoBar(u: Unicode, title: string)
    ensures '|' !in Title(u, title) && '|' !in StrippedTitle(u, title)
  {
    CleanHasNoBar(u, title);
    ExpandedHasNoBar(SplitWords(Clean(u, title)));
  }

  /** The text under the content hash is unambiguous: it determines the normalised title and company. */
  lemma ContentStringIsInjective(u: Unicode, t1: string, c1: string, t2: string, c2: string)
    ensures ContentString(u, t1, c1) == ContentString(u, t2, c2) <==>
      StrippedTitle(u, t1) == StrippedTitle(u, t2) && Company(u, c1) == Company(u, c2)
  {
    TitleHasNoBar(u, t1);
    TitleHasNoBar(u, t2);
    if ContentString(u, t1, c1) == ContentString(u, t2, c2) {
      CutAtFirst('|', StrippedTitle(u, t1), Company(u, c1), StrippedTitle(u, t2), Company(u, c2));
    }
  }

  // ----- Idempotence -----

  /** Exactly the suffixes at the end go: what is left is a prefix that does not end in one. */
  lemma {:induction false} OnlyTrailingSuffixesGo(tokens: seq<string>)
    ensures var kept := WithoutSuffixes(tokens);
      && kept <= tokens
      && (kept == [] || kept[|kept| - 1] !in COMPANY_SUFFIXES)
      && forall i :: |kept| <= i < |tokens| ==> tokens[i] in COMPANY_SUFFIXES
  {
    hide COMPANY_SUFFIXES;
    if tokens != [] && tokens[|tokens| - 1] in COMPANY_SUFFIXES {
      OnlyTrailingSuffixesGo(tokens[..|tokens| - 1]);
    }
  }

  lemma AliasesAreFinal(name: string)
    requires name in COMPANY_ALIASES
    ensures var canonical := COMPANY_ALIASES[name];
      IsWord(canonical) && canonical !in COMPANY_SUFFIXES && canonical !in COMPANY_ALIASES
  {
  }

  /** Normalising the words of a normalised company name changes nothing. */
  lemma CompanyIsIdempotent(tokens: seq<string>)
    requires AreWords(tokens)
    ensures CompanyOfTokens(SplitWords(CompanyOfTokens(tokens))) == CompanyOfTokens(tokens)
  {
    var kept := WithoutSuffixes(tokens);
    OnlyTrailingSuffixesGo(tokens);
    var name := Join(kept);
    if name in COMPANY_ALIASES {
      var canonical := COMPANY_ALIASES[name];
      AliasesAreFinal(name);
      assert Join([canonical]) == canonical;
      SplitOfJoin([canonical]);
    } else {
      SplitOfJoin(kept);
    }
  }

  const LONG_ABBREVIATIONS: set<string> := {"eng.", "engr", "devops", "admin", "assoc", "asst", "dept", "exec"}

  lemma LongAbbreviations(token: string)
    requires token in TITLE_ABBREVIATIONS && |token| >= 4
    ensures token in LONG_ABBREVIATIONS
  {
  }

  lemma ExpansionWordsAreNotAbbreviations(w: string)
    requires w in EXPANSION_WORDS
    ensures w !in LONG_ABBREVIATIONS
  {
  }

  lemma {:induction false} ExpandedIsFinal(tokens: seq<string>)
    requires AreWords(tokens)
    ensures AreWords(Expanded(tokens))
    ensures forall w :: w in Expanded(tokens) ==> w !in TITLE_ABBREVIATIONS
  {
    hide TITLE_ABBREVIATIONS, LONG_ABBREVIATIONS, EXPANSION_WORDS;
    if tokens != [] {
      ExpandedIsFinal(tokens[1..]);
      forall w | tokens[0] in TITLE_ABBREVIATIONS && w in TITLE_ABBREVIATIONS[tokens[0]]
        ensures IsWord(w) && w !in TITLE_ABBREVIATIONS
      {
        ExpansionsAreListed(tokens[0], w);
        ExpansionWordsAreLetters(w);
        ExpansionWordsAreNotAbbreviations(w);
        if w in TITLE_ABBREVIATIONS {
          LongAbbreviations(w);
        }
      }
    }
  }

  lemma {:induction false} FinalTokensStay(tokens: seq<string>)
    requires forall t :: t in tokens ==> t !in TITLE_ABBREVIATIONS
    ensures Expanded(tokens) == tokens
  {
    hide TITLE_ABBREVIATIONS;
    if tokens != [] {
      FinalTokensStay(tokens[1..]);
    }
  }

  /** Expanding the abbreviations of an expanded title changes nothing. */
  lemma TitleIsIdempotent(tokens: seq<string>)
    requires AreWords(tokens)
    ensures Join(Expanded(SplitWords(Join(Expanded(tokens))))) == Join(Expanded(tokens))
  {
    hide TITLE_ABBREVIATIONS;
    ExpandedIsFinal(tokens);
    SplitOfJoin(Expanded(tokens));
    FinalTokensStay(Expanded(tokens));
  }

  lemma {:induction false} ExpandedInParts(xs: seq<string>, ys: seq<string>)
    ensures Expanded(xs + ys) == Expanded(xs) + Expanded(ys)
  {
    hide TITLE_ABBREVIATIONS;
    if xs == [] {
      assert xs + ys == ys;
    } else {
      assert (xs + ys)[1..] == xs[1..] + ys;
      ExpandedInParts(xs[1..], ys);
    }
  }

  /** An abbreviation in a title is as good as what it stands for. */
  lemma AbbreviationsDoNotMatter(u: Unicode, a: string, b: string, xs: seq<string>, short: string, ys: seq<string>)
    requires a != "" && b != "" && short in TITLE_ABBREVIATIONS
    requires SplitWords(Clean(u, a)) == xs + [short] + ys
    requires SplitWords(Clean(u, b)) == xs + TITLE_ABBREVIATIONS[short] + ys
    ensures Title(u, a) == Title(u, b) && StrippedTitle(u, a) == StrippedTitle(u, b)
  {
    hide TITLE_ABBREVIATIONS, EXPANSION_WORDS, LONG_ABBREVIATIONS, Clean, WithoutLevels;
    var long := TITLE_ABBREVIATIONS[short];
    forall w | w in long ensures w !in TITLE_ABBREVIATIONS {
      ExpansionsAreListed(short, w);
      ExpansionWordsAreLetters(w);
      ExpansionWordsAreNotAbbreviations(w);
      if w in TITLE_ABBREVIATIONS {
        LongAbbreviations(w);
      }
    }
    FinalTokensStay(long);
    assert Expanded([short]) == long + Expanded([]);
    ExpandedInParts(xs + [short], ys);
    ExpandedInParts(xs, [short]);
    ExpandedInParts(xs + long, ys);
    ExpandedInParts(xs, long);
    assert TitleWords(u, a) == TitleWords(u, b);
  }

  // ----- Idempotence on whole texts -----

  // A character that folding leaves somewhere, or one of the plain ones that normalising adds.
  ghost predicate IsFolded(u: Unicode, c: char) {
    c == ' ' || 'a' <= c <= 'z' || exists s :: c in u.fold(s)
  }

  // Folding leaves folded text alone, as NFKD folding with lower-casing does.
  ghost predicate FoldsOnce(u: Unicode) {
    forall s :: (forall c :: c in s ==> IsFolded(u, c)) ==> u.fold(s) == s
  }

  ghost predicate IsCleanChar(u: Unicode, c: char) {
    c !in PUNCTUATION && IsFolded(u, c)
  }

  ghost predicate AreClean(u: Unicode, words: seq<string>) {
    forall w, c :: w in words && c in w ==> IsCleanChar(u, c)
  }

  lemma CleanedWordsAreClean(u: Unicode, s: string)
    ensures AreClean(u, SplitWords(Clean(u, s)))
  {
    var d := Depunctuate(u.fold(s));
    forall c | c in d ensures IsCleanChar(u, c) {
      var i :| 0 <= i < |d| && d[i] == c;
      SpaceIsNoPunctuation();
    }
    SpaceIsNoPunctuation();
  }

  lemma SpaceIsNoPunctuation()
    ensures ' ' !in PUNCTUATION && forall c :: 'a' <= c <= 'z' ==> c !in PUNCTUATION
  {
  }

  lemma CleanOfJoin(u: Unicode, words: seq<string>)
    requires FoldsOnce(u) && AreWords(words) && AreClean(u, words)
    ensures Clean(u, Join(words)) == Join(words)
  {
    hide PUNCTUATION, Strip, CollapseSpaces, Join;
    var s := Join(words);
    SpaceIsNoPunctuation();
    forall i | 0 <= i < |s| ensures s[i] !in PUNCTUATION && IsFolded(u, s[i]) {
      assert s[i] in s;
    }
    assert Depunctuate(s) == s;
    JoinIsTidy(words);
  }

  lemma AliasesAreLetters(name: string)
    requires name in COMPANY_ALIASES
    ensures forall c :: c in COMPANY_ALIASES[name] ==> 'a' <= c <= 'z'
  {
  }

  /** Normalising a normalised company name, cleaning included, changes nothing. */
  lemma CompanyTwiceIsOnce(u: Unicode, name: string)
    requires FoldsOnce(u)
    ensures Company(u, Company(u, name)) == Company(u, name)
  {
    hide COMPANY_ALIASES, COMPANY_SUFFIXES, PUNCTUATION, Clean, SplitWords, IsFolded, FoldsOnce;
    if name != "" {
      var tokens := SplitWords(Clean(u, name));
      var kept := WithoutSuffixes(tokens);
      CleanedWordsAreClean(u, name);
      OnlyTrailingSuffixesGo(tokens);
      if Join(kept) in COMPANY_ALIASES {
        var canonical := COMPANY_ALIASES[Join(kept)];
        AliasesAreFinal(Join(kept));
        AliasesAreLetters(Join(kept));
        LettersAreClean(u, [canonical]);
        CleanOfJoin(u, [canonical]);
        assert Join([canonical]) == canonical;
      } else {
        assert forall w :: w in kept ==> w in tokens;
        CleanOfJoin(u, kept);
      }
      CompanyIsIdempotent(tokens);
    }
  }

  lemma LettersAreClean(u: Unicode, words: seq<string>)
    requires forall w, c :: w in words && c in w ==> 'a' <= c <= 'z'
    ensures AreClean(u, words)
  {
    SpaceIsNoPunctuation();
  }

  lemma {:induction false} ExpandedIsClean(u: Unicode, tokens: seq<string>)
    requires AreClean(u, tokens)
    ensures AreClean(u, Expanded(tokens))
  {
    hide TITLE_ABBREVIATIONS, EXPANSION_WORDS, IsCleanChar;
    if tokens != [] {
      ExpandedIsClean(u, tokens[1..]);
      var first := if tokens[0] in TITLE_ABBREVIATIONS then TITLE_ABBREVIATIONS[tokens[0]] else [tokens[0]];
      if tokens[0] in TITLE_ABBREVIATIONS {
        forall w, c | w in first && c in w ensures 'a' <= c <= 'z' {
          ExpansionsAreListed(tokens[0], w);
          ExpansionWordsAreLetters(w);
        }
        LettersAreClean(u, first);
      }
      assert AreClean(u, first);
    }
  }

  /** Expanding an expanded title, cleaning included, changes nothing. */
  lemma TitleTwiceIsOnce(u: Unicode, title: string)
    requires FoldsOnce(u)
    ensures Title(u, Title(u, title)) == Title(u, title)
  {
    hide TITLE_ABBREVIATIONS, PUNCTUATION, Clean, SplitWords, IsFolded, FoldsOnce;
    if title != "" {
      var tokens := SplitWords(Clean(u, title));
      CleanedWordsAreClean(u, title);
      ExpandedIsClean(u, tokens);
      ExpandedIsFinal(tokens);
      CleanOfJoin(u, Expanded(tokens));
      TitleIsIdempotent(tokens);
    }
  }

  // The words of a title, abbreviations expanded.
  function TitleWords(u: Unicode, title: string): seq<string> {
    if title == "" then [] else Expanded(SplitWords(Clean(u, title)))
  }

  lemma TitleWordsAreClean(u: Unicode, title: string)
    ensures var words := TitleWords(u, title);
      AreClean(u, words) && AreWords(words) && forall w :: w in words ==> w !in TITLE_ABBREVIATIONS
  {
    hide TITLE_ABBREVIATIONS, Clean, IsCleanChar;
    if title != "" {
      CleanedWordsAreClean(u, title);
      ExpandedIsClean(u, SplitWords(Clean(u, title)));
      ExpandedIsFinal(SplitWords(Clean(u, title)));
    }
  }

  // ----- What a company's name is -----

  /** A company is its cleaned words up to the last one that is no suffix, under its alias if it has one. */
  lemma CompanyIsItsWords(u: Unicode, name: string, words: seq<string>, suffixes: seq<string>)
    requires name != "" && SplitWords(Clean(u, name)) == words + suffixes
    requires words == [] || words[|words| - 1] !in COMPANY_SUFFIXES
    requires forall w :: w in suffixes ==> w in COMPANY_SUFFIXES
    ensures Company(u, name) == (if Join(words) in COMPANY_ALIASES then COMPANY_ALIASES[Join(words)] else Join(words))
  {
    hide COMPANY_SUFFIXES, COMPANY_ALIASES;
    SuffixesGo(words, suffixes);
  }

  lemma {:induction false} SuffixesGo(words: seq<string>, suffixes: seq<string>)
    requires words == [] || words[|words| - 1] !in COMPANY_SUFFIXES
    requires forall w :: w in suffixes ==> w in COMPANY_SUFFIXES
    ensures WithoutSuffixes(words + suffixes) == words
    decreases |suffixes|
  {
    hide COMPANY_SUFFIXES;
    if suffixes == [] {
      assert words + suffixes == words;
    } else {
      assert (words + suffixes)[..|words + suffixes| - 1] == words + suffixes[..|suffixes| - 1];
      SuffixesGo(words, suffixes[..|suffixes| - 1]);
    }
  }
}
