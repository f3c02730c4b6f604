/**
 What the level pattern of backend/app/scraping/normalization.py removes from a title.

 A text is read as runs of word characters, some of them empty, with one other character between each two. The
 pattern takes whole runs, or two of them with the space or hyphen between.
 */
module Levels {
  import opened Text
  import opened Normalization

  // How \w reads the characters that levels are made of, as the regex engine does.
  ghost predicate ReadsWords(u: Unicode) {
    && (forall c :: 'a' <= c <= 'z' || '1' <= c <= '5' ==> u.isWordChar(c))
    && !u.isWordChar(' ') && !u.isWordChar('-') && forall c :: IsSpace(c) ==> !u.isWordChar(c)
  }

  ghost predicate IsLevel(w: string) {
    w in ["i", "ii", "iii", "iv", "v", "1", "2", "3", "4", "5", "staff", "principal", "lead", "senior", "junior",
          "entrylevel", "intern", "midlevel"]
  }

  ghost predicate IsLevelPair(w: string, x: string) {
    (w == "entry" || w == "mid") && x == "level"
  }

  // ----- Runs -----

  datatype Cut = Cut(runs: seq<string>, gaps: string)

  type Pieces = t: Cut | |t.runs| == |t.gaps| + 1 witness Cut([""], "")

  ghost function After(t: Pieces, n: nat): Pieces
    requires n <= |t.gaps|
  {
    Cut(t.runs[n..], t.gaps[n..])
  }

  ghost function Led(run: string, gap: char, rest: Pieces): Pieces {
    Cut([run] + rest.runs, [gap] + rest.gaps)
  }

  ghost function TextOf(t: Pieces): string
    decreases |t.gaps|
  {
    t.runs[0] + if t.gaps == "" then "" else [t.gaps[0]] + TextOf(After(t, 1))
  }

  ghost predicate AreRuns(u: Unicode, t: Pieces) {
    && (forall run, c :: run in t.runs && c in run ==> u.isWordChar(c))
    && (forall c :: c in t.gaps ==> !u.isWordChar(c))
  }

  ghost function Prefixed(c: char, t: Pieces): Pieces {
    Cut([[c] + t.runs[0]] + t.runs[1..], t.gaps)
  }

  ghost function PiecesOf(u: Unicode, s: string): (t: Pieces)
    ensures AreRuns(u, t)
  {
    if s == "" then Cut([""], "")
    else if u.isWordChar(s[0]) then Prefixed(s[0], PiecesOf(u, s[1..]))
    else Led("", s[0], PiecesOf(u, s[1..]))
  }

  lemma TextOfLed(run: string, gap: char, rest: Pieces)
    ensures TextOf(Led(run, gap, rest)) == run + [gap] + TextOf(rest)
  {
    var t := Led(run, gap, rest);
    assert After(t, 1) == rest;
  }

  lemma TextOfPrefixed(c: char, t: Pieces)
    ensures TextOf(Prefixed(c, t)) == [c] + TextOf(t)
  {
    if t.gaps != "" {
      assert After(Prefixed(c, t), 1) == After(t, 1);
    }
  }

  lemma {:induction false} TextOfPieces(u: Unicode, s: string)
    ensures TextOf(PiecesOf(u, s)) == s
  {
    hide TextOf, Prefixed, Led;
    if s == "" {
      OneRunIs("");
    } else {
      TextOfPieces(u, s[1..]);
      TextOfPrefixed(s[0], PiecesOf(u, s[1..]));
      TextOfLed("", s[0], PiecesOf(u, s[1..]));
    }
  }

  lemma OneRunIs(run: string)
    ensures TextOf(Cut([run], "")) == run
  {
  }

  // ----- What is kept -----

  // How many runs a level takes at the start: one, two that make a pair, or none.
  ghost function Taken(t: Pieces): (n: nat)
    ensures n <= 2 && n <= |t.runs|
  {
    if IsLevel(t.runs[0]) then 1
    else if |t.runs| > 1 && IsLevelPair(t.runs[0], t.runs[1]) && t.gaps[0] in " -" then 2
    else 0
  }

  // An empty run takes the place of each level; the other runs and their gaps stay.
  ghost function Kept(t: Pieces): Pieces
    decreases |t.gaps|
  {
    var first, n := if Taken(t) == 0 then t.runs[0] else "", if Taken(t) == 2 then 2 else 1;
    if n == |t.runs| then Cut([first], "") else Led(first, t.gaps[n - 1], Kept(After(t, n)))
  }

  // ----- Where the pattern matches -----

  // The text from position `p` on is these pieces, and no run goes on there.
  ghost predicate PiecesAt(u: Unicode, s: string, p: nat, t: Pieces) {
    && p <= |s| && s[p..] == TextOf(t) && AreRuns(u, t)
    && (p == 0 || !u.isWordChar(s[p - 1]))
  }

  lemma RunAt(u: Unicode, s: string, p: nat, t: Pieces)
    requires PiecesAt(u, s, p, t)
    ensures var w := t.runs[0];
      && p + |w| <= |s| && s[p..p + |w|] == w
      && (forall k :: p <= k < p + |w| ==> u.isWordChar(s[k]))
      && (if t.gaps == "" then p + |w| == |s|
          else p + |w| < |s| && s[p + |w|] == t.gaps[0] && !u.isWordChar(s[p + |w|])
               && PiecesAt(u, s, p + |w| + 1, After(t, 1)))
  {
    var w := t.runs[0];
    assert TextOf(t)[..|w|] == w;
    forall k | p <= k < p + |w| ensures u.isWordChar(s[k]) {
      assert s[k] == s[p..][k - p] == w[k - p] && w[k - p] in w && w in t.runs;
    }
    if t.gaps != "" {
      var rest := TextOf(After(t, 1));
      assert s[p..] == w + [t.gaps[0]] + rest;
      assert s[p + |w|] == s[p..][|w|] == t.gaps[0] && t.gaps[0] in t.gaps;
      assert s[p + |w| + 1..] == s[p..][|w| + 1..] == rest;
    }
  }

  // A level of word characters that ends at a boundary is the whole first run.
  lemma MatchesRun(u: Unicode, s: string, p: nat, t: Pieces, level: string)
    requires PiecesAt(u, s, p, t)
    requires level != "" && forall c :: c in level ==> u.isWordChar(c)
    ensures p + |level| <= |s| && s[p..p + |level|] == level && AtBoundary(u, s, p + |level|) <==> t.runs[0] == level
  {
    RunAt(u, s, p, t);
    var w, n := t.runs[0], |level|;
    if p + n <= |s| && s[p..p + n] == level {
      forall k | p <= k < p + n ensures u.isWordChar(s[k]) {
        assert s[k] == s[p..p + n][k - p] && s[k] in level;
      }
      assert n <= |w|;
    }
  }

  ghost predicate IsPair(t: Pieces) {
    |t.runs| > 1 && IsLevelPair(t.runs[0], t.runs[1]) && t.gaps[0] in " -"
  }

  lemma LevelForms(level: string)
    requires level in LEVELS
    ensures level != ""
    ensures || level in ["entry level", "mid level", "entry-level", "mid-level"]
            || (IsLevel(level) && forall c :: c in level ==> 'a' <= c <= 'z' || '1' <= c <= '5')
  {
  }

  lemma LevelsAreListed(w: string)
    requires IsLevel(w)
    ensures w in LEVELS
  {
    assert LEVELS[0] == "iii" && LEVELS[1] == "ii" && LEVELS[2] == "i" && LEVELS[3] == "iv" && LEVELS[4] == "v";
    assert LEVELS[5] == "1" && LEVELS[6] == "2" && LEVELS[7] == "3" && LEVELS[8] == "4" && LEVELS[9] == "5";
    assert LEVELS[10] == "staff" && LEVELS[11] == "principal" && LEVELS[12] == "lead" && LEVELS[13] == "senior";
    assert LEVELS[14] == "junior" && LEVELS[17] == "entrylevel" && LEVELS[18] == "intern" && LEVELS[21] == "midlevel";
  }

  lemma PairsAreListed(w: string, gap: char)
    requires IsLevelPair(w, "level") && gap in " -"
    ensures w + [gap] + "level" in LEVELS && !IsLevel(w)
  {
    assert LEVELS[15] == "entry-level" == "entry" + ['-'] + "level";
    assert LEVELS[16] == "entry level" == "entry" + [' '] + "level";
    assert LEVELS[19] == "mid-level" == "mid" + ['-'] + "level";
    assert LEVELS[20] == "mid level" == "mid" + [' '] + "level";
  }

  // A text in which two runs and the gap between them stand at `p`.
  lemma PairSlice(s: string, p: nat, first: string, gap: char, second: string)
    requires p + |first| + 1 + |second| <= |s|
    ensures var q, level := p + |first| + 1, first + [gap] + second;
      s[p..q + |second|] == level <==> s[p..q - 1] == first && s[q - 1] == gap && s[q..q + |second|] == second
  {
    var q, level := p + |first| + 1, first + [gap] + second;
    var t := s[p..q + |second|];
    assert t[..|first|] == s[p..q - 1] && t[|first|] == s[q - 1] && t[|first| + 1..] == s[q..q + |second|];
    assert level[..|first|] == first && level[|first|] == gap && level[|first| + 1..] == second;
    assert t == t[..|first|] + [t[|first|]] + t[|first| + 1..];
  }

  lemma PairStarts(u: Unicode, s: string, p: nat, t: Pieces, first: string, gap: char)
    requires ReadsWords(u) && PiecesAt(u, s, p, t) && first in ["entry", "mid"] && gap in " -"
    ensures var level := first + [gap] + "level";
      p + |level| <= |s| && s[p..p + |level|] == level && AtBoundary(u, s, p + |level|) <==>
      |t.runs| > 1 && t.runs[0] == first && t.gaps[0] == gap && t.runs[1] == "level"
  {
    hide PiecesAt, AtBoundary;
    RunAt(u, s, p, t);
    var w, n, q := t.runs[0], |first|, p + |first| + 1;
    assert forall k :: 0 <= k < n ==> 'a' <= first[k] <= 'z';
    if q + 5 <= |s| {
      PairSlice(s, p, first, gap, "level");
      if s[p..q - 1] == first && s[q - 1] == gap {
        assert forall k :: 0 <= k < n ==> s[p + k] == s[p..q - 1][k] == first[k];
        assert |w| == n;
      }
    }
    if |t.runs| > 1 && w == first {
      MatchesRun(u, s, q, After(t, 1), "level");
    }
  }

  // The level that the pieces start with: their first run, or the first two of them with their gap.
  ghost predicate StartsWithLevel(t: Pieces, level: string) {
    level == t.runs[0] || (IsPair(t) && level == t.runs[0] + [t.gaps[0]] + t.runs[1])
  }

  lemma RunIsBounded(u: Unicode, s: string, p: nat, t: Pieces)
    requires PiecesAt(u, s, p, t) && t.runs[0] != ""
    ensures AtBoundary(u, s, p) && AreRuns(u, t)
  {
    RunAt(u, s, p, t);
  }

  lemma LevelStarts(u: Unicode, s: string, p: nat, t: Pieces, level: string)
    requires ReadsWords(u) && PiecesAt(u, s, p, t) && t.runs[0] != "" && level in LEVELS
    ensures MatchesAt(u, s, p, level) <==> StartsWithLevel(t, level)
  {
    hide PiecesAt, AtBoundary, AreRuns, LEVELS, IsLevel, IsPair, StartsWithLevel;
    RunIsBounded(u, s, p, t);
    LevelForms(level);
    if level in ["entry level", "mid level", "entry-level", "mid-level"] {
      var first, gap := CompoundIs(level);
      PairStarts(u, s, p, t, first, gap);
      PairText(u, t, first, gap);
    } else {
      MatchesRun(u, s, p, t, level);
      NoPairText(u, t, level);
    }
  }

  lemma CompoundIs(level: string) returns (first: string, gap: char)
    requires level in ["entry level", "mid level", "entry-level", "mid-level"]
    ensures level == first + [gap] + "level" && first in ["entry", "mid"] && gap in " -"
  {
    first := if level in ["entry level", "entry-level"] then "entry" else "mid";
    gap := if level in ["entry level", "mid level"] then ' ' else '-';
  }

  lemma PairText(u: Unicode, t: Pieces, first: string, gap: char)
    requires ReadsWords(u) && AreRuns(u, t) && first in ["entry", "mid"] && gap in " -"
    ensures StartsWithLevel(t, first + [gap] + "level") <==>
      |t.runs| > 1 && t.runs[0] == first && t.gaps[0] == gap && t.runs[1] == "level"
  {
    var level := first + [gap] + "level";
    assert level[|first|] == gap && gap in level;
    assert gap !in t.runs[0];
    if IsPair(t) {
      var text := t.runs[0] + [t.gaps[0]] + t.runs[1];
      assert text[0] == t.runs[0][0] && level[0] == first[0];
      assert text[|t.runs[0]|] == t.gaps[0];
    }
  }

  lemma NoPairText(u: Unicode, t: Pieces, level: string)
    requires AreRuns(u, t) && forall c :: c in level ==> u.isWordChar(c)
    ensures StartsWithLevel(t, level) <==> level == t.runs[0]
  {
    if |t.runs| > 1 {
      var text := t.runs[0] + [t.gaps[0]] + t.runs[1];
      assert text[|t.runs[0]|] == t.gaps[0] && t.gaps[0] in t.gaps;
      assert t.gaps[0] in text && t.gaps[0] !in level;
    }
  }

  lemma {:induction false} NoLevelWithin(u: Unicode, s: string, p: nat, k: nat)
    requires p <= |s| && k <= |LEVELS| && !AtBoundary(u, s, p)
    ensures LevelAt(u, s, p, k) == 0
    decreases |LEVELS| - k
  {
    hide AtBoundary, LEVELS;
    if k < |LEVELS| {
      NoLevelWithin(u, s, p, k + 1);
    }
  }

  // No level starts with a character that is no word character.
  lemma {:induction false} NoLevelAtGap(u: Unicode, s: string, p: nat, k: nat)
    requires ReadsWords(u) && p < |s| && k <= |LEVELS| && !u.isWordChar(s[p])
    ensures LevelAt(u, s, p, k) == 0
    decreases |LEVELS| - k
  {
    hide AtBoundary, LEVELS;
    if k < |LEVELS| {
      NoLevelAtGap(u, s, p, k + 1);
      LevelInitial(u, LEVELS[k]);
      assert p + |LEVELS[k]| <= |s| ==> s[p..p + |LEVELS[k]|][0] == s[p];
    }
  }

  lemma LevelInitial(u: Unicode, level: string)
    requires ReadsWords(u) && level in LEVELS
    ensures level != "" && u.isWordChar(level[0])
  {
    LevelForms(level);
    hide LEVELS, IsLevel;
    if level in ["entry level", "mid level", "entry-level", "mid-level"] {
      assert level[0] == 'e' || level[0] == 'm';
    } else {
      assert level[0] in level;
    }
  }

  // The alternatives from the k-th on have one of the two levels the pieces start with, or none.
  lemma {:induction false} LevelAtRun(u: Unicode, s: string, p: nat, t: Pieces, k: nat)
    requires ReadsWords(u) && PiecesAt(u, s, p, t) && t.runs[0] != "" && k <= |LEVELS|
    ensures LevelAt(u, s, p, k) ==
      if t.runs[0] in LEVELS[k..] then |t.runs[0]|
      else if IsPair(t) && t.runs[0] + [t.gaps[0]] + t.runs[1] in LEVELS[k..] then |t.runs[0]| + 1 + |t.runs[1]|
      else 0
    decreases |LEVELS| - k
  {
    hide MatchesAt, LEVELS, IsLevel, PiecesAt;
    if k < |LEVELS| {
      LevelStarts(u, s, p, t, LEVELS[k]);
      LevelAtRun(u, s, p, t, k + 1);
      assert LEVELS[k..] == [LEVELS[k]] + LEVELS[k + 1..];
      if IsPair(t) {
        PairHeadsAreNoLevels(t);
      }
    }
  }

  lemma PairHeadsAreNoLevels(t: Pieces)
    requires IsPair(t)
    ensures t.runs[0] !in LEVELS && !IsLevel(t.runs[0]) && t.runs[0] + [t.gaps[0]] + t.runs[1] in LEVELS
  {
    var w, gap := t.runs[0], t.gaps[0];
    PairsAreListed(w, gap);
    hide LEVELS;
    forall level | level in LEVELS ensures level != w {
      LevelForms(level);
    }
  }

  lemma LevelHere(u: Unicode, s: string, p: nat, t: Pieces)
    requires ReadsWords(u) && PiecesAt(u, s, p, t) && t.runs[0] != ""
    ensures LevelAt(u, s, p, 0) ==
      match Taken(t)
      case 0 => 0
      case 1 => |t.runs[0]|
      case _ => |t.runs[0]| + 1 + |t.runs[1]|
  {
    hide LEVELS, IsLevel, PiecesAt;
    LevelAtRun(u, s, p, t, 0);
    assert LEVELS[0..] == LEVELS;
    if IsLevel(t.runs[0]) {
      LevelsAreListed(t.runs[0]);
    } else if t.runs[0] in LEVELS {
      ArePieces(u, s, p, t);
      LevelForms(t.runs[0]);
      PlainIsNoCompound(u, t.runs[0]);
    } else if IsPair(t) {
      PairHeadsAreNoLevels(t);
    }
  }

  lemma ArePieces(u: Unicode, s: string, p: nat, t: Pieces)
    requires PiecesAt(u, s, p, t)
    ensures AreRuns(u, t)
  {
  }

  lemma PlainIsNoCompound(u: Unicode, w: string)
    requires ReadsWords(u) && forall c :: c in w ==> u.isWordChar(c)
    ensures w !in ["entry level", "mid level", "entry-level", "mid-level"]
  {
    assert "entry level"[5] == ' ' && "mid level"[3] == ' ' && "entry-level"[5] == '-' && "mid-level"[3] == '-';
  }

  // ----- Removing the levels -----

  lemma OneCharStays(u: Unicode, s: string, p: nat)
    requires p < |s| && LevelAt(u, s, p, 0) == 0
    ensures WithoutLevels(u, s, p) == [s[p]] + WithoutLevels(u, s, p + 1)
  {
    hide LevelAt;
  }

  lemma OneLevelGoes(u: Unicode, s: string, p: nat)
    requires p < |s| && LevelAt(u, s, p, 0) > 0
    ensures WithoutLevels(u, s, p) == WithoutLevels(u, s, p + LevelAt(u, s, p, 0))
  {
    hide LevelAt;
  }

  // The rest of a run that no level starts with is kept.
  lemma {:induction false} RunTailStays(u: Unicode, s: string, p: nat, end: nat)
    requires p <= end <= |s| && 0 < p
    requires forall k :: p - 1 <= k < end ==> u.isWordChar(s[k])
    ensures WithoutLevels(u, s, p) == s[p..end] + WithoutLevels(u, s, end)
    decreases end - p
  {
    hide LevelAt, WithoutLevels;
    if p < end {
      NoLevelWithin(u, s, p, 0);
      OneCharStays(u, s, p);
      RunTailStays(u, s, p + 1, end);
      assert s[p..end] == [s[p]] + s[p + 1..end];
    }
  }

  // One step from the start of a run to the gap after it, or after the two runs of a pair.
  lemma RunStep(u: Unicode, s: string, p: nat, t: Pieces)
    requires ReadsWords(u) && PiecesAt(u, s, p, t)
    ensures var first, n := if Taken(t) == 0 then t.runs[0] else "", if Taken(t) == 2 then 2 else 1;
      var next := p + |t.runs[0]| + if n == 2 then 1 + |t.runs[1]| else 0;
      && next <= |s| && WithoutLevels(u, s, p) == first + WithoutLevels(u, s, next)
      && (if n == |t.runs| then next == |s|
          else next < |s| && s[next] == t.gaps[n - 1] && !u.isWordChar(s[next]) && PiecesAt(u, s, next + 1, After(t, n)))
  {
    hide PiecesAt, IsLevel, IsLevelPair, LevelAt, ReadsWords, WithoutLevels;
    RunAt(u, s, p, t);
    var w := t.runs[0];
    if w == "" {
      EmptyIsNoLevel(t);
    } else {
      LevelHere(u, s, p, t);
      if Taken(t) > 0 {
        OneLevelGoes(u, s, p);
        if Taken(t) == 2 {
          RunAt(u, s, p + |w| + 1, After(t, 1));
          assert |t.gaps| > 1 ==> After(After(t, 1), 1) == After(t, 2);
        }
      } else {
        OneCharStays(u, s, p);
        RunTailStays(u, s, p + 1, p + |w|);
        assert s[p..p + |w|] == [s[p]] + s[p + 1..p + |w|];
      }
    }
  }

  lemma EmptyIsNoLevel(t: Pieces)
    requires t.runs[0] == ""
    ensures Taken(t) == 0
  {
  }

  /** Removing the levels from a text keeps the text of what is kept of its pieces. */
  lemma {:induction false} LevelsGo(u: Unicode, s: string, p: nat, t: Pieces)
    requires ReadsWords(u) && PiecesAt(u, s, p, t)
    ensures WithoutLevels(u, s, p) == TextOf(Kept(t))
    decreases |t.gaps|
  {
    hide PiecesAt, ReadsWords, LevelAt, Taken, WithoutLevels;
    RunStep(u, s, p, t);
    var first, n := if Taken(t) == 0 then t.runs[0] else "", if Taken(t) == 2 then 2 else 1;
    var next := p + |t.runs[0]| + if n == 2 then 1 + |t.runs[1]| else 0;
    if n == |t.runs| {
      NothingIsLeft(u, s, next);
    } else {
      NoLevelAtGap(u, s, next, 0);
      OneCharStays(u, s, next);
      LevelsGo(u, s, next + 1, After(t, n));
      TextOfLed(first, t.gaps[n - 1], Kept(After(t, n)));
    }
  }

  lemma NothingIsLeft(u: Unicode, s: string, p: nat)
    requires p == |s|
    ensures WithoutLevels(u, s, p) == ""
  {
  }

  // ----- Words -----

  // The words that stripping leaves of some words.
  ghost function StrippedWords(u: Unicode, words: seq<string>): (stripped: seq<string>)
    ensures AreWords(stripped)
  {
    SplitWords(TextOf(Kept(PiecesOf(u, Join(words)))))
  }

  /** The stripped title is what stripping leaves of the title's words, joined by single spaces. */
  lemma StrippedTitleIsTheKeptWords(u: Unicode, title: string)
    requires ReadsWords(u)
    ensures StrippedTitle(u, title) == Join(StrippedWords(u, TitleWords(u, title)))
  {
    hide Kept, WithoutLevels, PiecesOf, Clean;
    var s := Title(u, title);
    var t := PiecesOf(u, s);
    TextOfPieces(u, s);
    assert s == Join(TitleWords(u, title)) && s[0..] == s;
    LevelsGo(u, s, 0, t);
    TidiedIsJoined(TextOf(Kept(t)));
  }

  ghost function Joined(a: Pieces, b: Pieces): Pieces {
    Cut(a.runs + b.runs, a.gaps + " " + b.gaps)
  }

  lemma LedJoined(run: string, gap: char, a: Pieces, b: Pieces)
    ensures Joined(Led(run, gap, a), b) == Led(run, gap, Joined(a, b))
    ensures Joined(Cut([run], ""), b) == Led(run, ' ', b)
  {
  }

  lemma PrefixedJoined(c: char, a: Pieces, b: Pieces)
    ensures Joined(Prefixed(c, a), b) == Prefixed(c, Joined(a, b))
  {
  }

  lemma IsLed(t: Pieces)
    ensures t == if t.gaps == "" then Cut([t.runs[0]], "") else Led(t.runs[0], t.gaps[0], After(t, 1))
  {
  }

  lemma {:induction false} TextOfJoined(a: Pieces, b: Pieces)
    ensures TextOf(Joined(a, b)) == TextOf(a) + " " + TextOf(b)
    decreases |a.gaps|
  {
    hide TextOf, Led, Joined;
    IsLed(a);
    LedJoined(a.runs[0], ' ', a, b);
    if a.gaps == "" {
      OneRunIs(a.runs[0]);
      TextOfLed(a.runs[0], ' ', b);
    } else {
      TextOfJoined(After(a, 1), b);
      LedJoined(a.runs[0], a.gaps[0], After(a, 1), b);
      TextOfLed(a.runs[0], a.gaps[0], After(a, 1));
      TextOfLed(a.runs[0], a.gaps[0], Joined(After(a, 1), b));
    }
  }

  lemma {:induction false} PiecesOfJoined(u: Unicode, x: string, y: string)
    requires !u.isWordChar(' ')
    ensures PiecesOf(u, x + " " + y) == Joined(PiecesOf(u, x), PiecesOf(u, y))
  {
    hide Led, Joined, Prefixed;
    var s := x + " " + y;
    if x == "" {
      assert s[1..] == y;
      LedJoined("", ' ', PiecesOf(u, y), PiecesOf(u, y));
    } else {
      assert s[1..] == x[1..] + " " + y;
      PiecesOfJoined(u, x[1..], y);
      LedJoined("", x[0], PiecesOf(u, x[1..]), PiecesOf(u, y));
      PrefixedJoined(x[0], PiecesOf(u, x[1..]), PiecesOf(u, y));
    }
  }

  ghost function FirstRun(u: Unicode, s: string): string {
    PiecesOf(u, s).runs[0]
  }

  ghost function LastRun(u: Unicode, s: string): string {
    var t := PiecesOf(u, s);
    t.runs[|t.gaps|]
  }

  ghost predicate MeetAsPair(u: Unicode, xs: seq<string>, ys: seq<string>) {
    xs != [] && ys != [] && IsLevelPair(LastRun(u, xs[|xs| - 1]), FirstRun(u, ys[0]))
  }

  lemma LevelsAndPairs(w: string, x: string)
    ensures IsLevel(w) ==> !IsLevelPair(w, x) && !IsLevelPair(x, w)
    ensures IsLevelPair(w, x) ==> !IsLevel(w) && !IsLevel(x) && forall y :: !IsLevelPair(x, y)
    ensures !IsLevel("") && !IsLevelPair("", x) && !IsLevelPair(x, "")
  {
  }

  lemma AfterInJoined(a: Pieces, b: Pieces, n: nat)
    requires 0 < n <= |a.runs|
    ensures Joined(a, b).gaps[n - 1] == if n == |a.runs| then ' ' else a.gaps[n - 1]
    ensures After(Joined(a, b), n) == if n == |a.runs| then b else Joined(After(a, n), b)
  {
  }

  lemma TakenInJoined(a: Pieces, b: Pieces)
    requires !IsLevelPair(a.runs[|a.gaps|], b.runs[0]) || |a.runs| > 1
    ensures Taken(Joined(a, b)) == Taken(a)
  {
    hide IsLevel, IsLevelPair;
  }

  // What is kept, by how much the first level takes.
  lemma KeptAfter(t: Pieces, first: string, n: nat)
    requires n == (if Taken(t) == 2 then 2 else 1) && first == if Taken(t) == 0 then t.runs[0] else ""
    ensures Kept(t) == if n == |t.runs| then Cut([first], "") else Led(first, t.gaps[n - 1], Kept(After(t, n)))
  {
  }

  lemma {:induction false} KeptApart(a: Pieces, b: Pieces)
    requires !IsLevelPair(a.runs[|a.gaps|], b.runs[0])
    ensures Kept(Joined(a, b)) == Joined(Kept(a), Kept(b))
    decreases |a.gaps|
  {
    hide IsLevelPair, Taken, Kept;
    var t, n := Joined(a, b), if Taken(a) == 2 then 2 else 1;
    var first := if Taken(a) == 0 then a.runs[0] else "";
    TakenInJoined(a, b);
    KeptAfter(a, first, n);
    KeptAfter(t, first, n);
    AfterInJoined(a, b, n);
    if n < |a.runs| {
      KeptApart(After(a, n), b);
    }
  }

  // The number of characters in some words.
  ghost function Size(words: seq<string>): nat {
    if words == [] then 0 else |words[0]| + Size(words[1..])
  }

  // The number of characters that are no spaces.
  ghost function Ink(s: string): nat {
    if s == "" then 0 else (if IsSpace(s[0]) then 0 else 1) + Ink(s[1..])
  }

  lemma {:induction false} SizeAdds(xs: seq<string>, ys: seq<string>)
    ensures Size(xs + ys) == Size(xs) + Size(ys)
  {
    if xs == [] {
      assert xs + ys == ys;
    } else {
      assert (xs + ys)[1..] == xs[1..] + ys;
      SizeAdds(xs[1..], ys);
    }
  }

  lemma {:induction false} InkAdds(s: string, t: string)
    ensures Ink(s + t) == Ink(s) + Ink(t)
  {
    if s == "" {
      assert s + t == t;
    } else {
      assert (s + t)[1..] == s[1..] + t;
      InkAdds(s[1..], t);
    }
  }

  lemma {:induction false} InkOfWord(w: string)
    requires forall c :: c in w ==> !IsSpace(c)
    ensures Ink(w) == |w|
  {
    if w != "" {
      InkOfWord(w[1..]);
    }
  }

  lemma {:induction false} SizeOfSplit(s: string)
    ensures Size(SplitWords(s)) == Ink(s)
    decreases |s|
  {
    if s != "" && IsSpace(s[0]) {
      SizeOfSplit(s[1..]);
    } else if s != "" {
      var n := LeadingWord(s);
      assert s == s[..n] + s[n..];
      InkAdds(s[..n], s[n..]);
      InkOfWord(s[..n]);
      SizeOfSplit(s[n..]);
      SplitFirstWord(s[..n], s[n..]);
    }
  }

  lemma InkOfLed(run: string, gap: char, rest: Pieces)
    ensures Ink(TextOf(Led(run, gap, rest))) == Ink(run) + Ink([gap]) + Ink(TextOf(rest))
  {
    TextOfLed(run, gap, rest);
    InkAdds(run + [gap], TextOf(rest));
    InkAdds(run, [gap]);
  }

  // When the two parts meet as a pair, both runs of it go.
  lemma {:induction false} KeptTogether(a: Pieces, b: Pieces)
    requires IsLevelPair(a.runs[|a.gaps|], b.runs[0])
    ensures Ink(TextOf(Kept(Joined(a, b)))) < Ink(TextOf(Kept(a))) + Ink(TextOf(Kept(b)))
    decreases |a.gaps|
  {
    hide Ink, Taken, Kept, IsLevelPair;
    var t, n := Joined(a, b), if Taken(a) == 2 then 2 else 1;
    var first := if Taken(a) == 0 then a.runs[0] else "";
    KeptAfter(a, first, n);
    if a.gaps == "" {
      PairGoes(a, b);
    } else {
      TakenInJoined(a, b);
      KeptAfter(t, first, n);
      AfterInJoined(a, b, n);
      LastIsNotTaken(a, b.runs[0]);
      KeptTogether(After(a, n), b);
      InkOfLed(first, a.gaps[n - 1], Kept(After(a, n)));
      InkOfLed(first, a.gaps[n - 1], Kept(After(t, n)));
    }
  }

  lemma LastIsNotTaken(a: Pieces, x: string)
    requires a.gaps != "" && IsLevelPair(a.runs[|a.gaps|], x)
    ensures Taken(a) == 2 ==> |a.runs| > 2
  {
  }

  lemma PairIsTaken(a: Pieces, b: Pieces)
    requires a.gaps == "" && IsLevelPair(a.runs[0], b.runs[0])
    ensures Taken(Joined(a, b)) == 2 && Taken(a) == 0 && Taken(b) == 0
  {
    hide IsLevel;
    LevelsAndPairs(a.runs[0], b.runs[0]);
  }

  lemma InkOfOne(run: string)
    requires forall c :: c in run ==> !IsSpace(c)
    ensures Ink(TextOf(Cut([run], ""))) == Ink(run) == |run|
  {
    InkOfWord(run);
    assert run + "" == run;
  }

  lemma AfterPair(a: Pieces, b: Pieces)
    requires a.gaps == ""
    ensures var t := Joined(a, b);
      && |t.runs| == 1 + |b.runs|
      && (b.gaps != "" ==> t.gaps[1] == b.gaps[0] && After(t, 2) == After(b, 1))
  {
  }

  lemma PairGoes(a: Pieces, b: Pieces)
    requires a.gaps == "" && IsLevelPair(a.runs[0], b.runs[0])
    ensures Ink(TextOf(Kept(Joined(a, b)))) < Ink(TextOf(Kept(a))) + Ink(TextOf(Kept(b)))
  {
    var t, w, x := Joined(a, b), a.runs[0], b.runs[0];
    PairIsTaken(a, b);
    hide Ink, Kept, Taken, TextOf, Joined, After, Led, IsLevelPair;
    AfterPair(a, b);
    KeptAfter(a, w, 1);
    KeptAfter(b, x, 1);
    KeptAfter(t, "", 2);
    PairIsInk(w, x);
    InkOfOne(w);
    InkOfOne(x);
    InkOfOne("");
    if b.gaps != "" {
      InkOfLed("", b.gaps[0], Kept(After(b, 1)));
      InkOfLed(x, b.gaps[0], Kept(After(b, 1)));
      InkOfWord("");
      InkOfWord(x);
    }
  }

  lemma PairIsInk(w: string, x: string)
    requires IsLevelPair(w, x)
    ensures w != "" && x != "" && (forall c :: c in w ==> !IsSpace(c)) && forall c :: c in x ==> !IsSpace(c)
  {
  }

  lemma {:induction false} JoinInParts(xs: seq<string>, ys: seq<string>)
    requires xs != [] && ys != []
    ensures Join(xs + ys) == Join(xs) + " " + Join(ys)
  {
    assert (xs + ys)[1..] == xs[1..] + ys;
    if |xs| > 1 {
      JoinInParts(xs[1..], ys);
    } else {
      assert xs[1..] + ys == ys;
    }
  }

  lemma RunsOfTwo(u: Unicode, x: string, y: string)
    requires !u.isWordChar(' ')
    ensures FirstRun(u, x + " " + y) == FirstRun(u, x) && LastRun(u, x + " " + y) == LastRun(u, y)
  {
    hide PiecesOf;
    PiecesOfJoined(u, x, y);
  }

  lemma JoinOfOne(w: string)
    ensures Join([w]) == w
  {
  }

  lemma RunsOfJoin(u: Unicode, words: seq<string>)
    requires !u.isWordChar(' ') && words != []
    ensures FirstRun(u, Join(words)) == FirstRun(u, words[0])
    ensures LastRun(u, Join(words)) == LastRun(u, words[|words| - 1])
  {
    hide FirstRun, LastRun, Join;
    var n := |words| - 1;
    JoinOfOne(words[0]);
    JoinOfOne(words[n]);
    if n == 0 {
      assert words == [words[0]];
    } else {
      assert words == [words[0]] + words[1..] && words == words[..n] + [words[n]];
      JoinInParts([words[0]], words[1..]);
      JoinInParts(words[..n], [words[n]]);
      RunsOfTwo(u, words[0], Join(words[1..]));
      RunsOfTwo(u, Join(words[..n]), words[n]);
    }
  }

  /** Stripping works part by part, unless the parts meet as the two runs of a level; then both of these go. */
  lemma StripsInParts(u: Unicode, xs: seq<string>, ys: seq<string>)
    requires ReadsWords(u)
    ensures !MeetAsPair(u, xs, ys) ==> StrippedWords(u, xs + ys) == StrippedWords(u, xs) + StrippedWords(u, ys)
    ensures MeetAsPair(u, xs, ys) ==>
      Size(StrippedWords(u, xs + ys)) < Size(StrippedWords(u, xs)) + Size(StrippedWords(u, ys))
  {
    hide PiecesOf, Ink, Size, IsLevelPair;
    StripsNothing(u);
    if xs == [] {
      assert xs + ys == ys;
    } else if ys == [] {
      assert xs + ys == xs;
    } else {
      var a, b := PiecesOf(u, Join(xs)), PiecesOf(u, Join(ys));
      JoinInParts(xs, ys);
      PiecesOfJoined(u, Join(xs), Join(ys));
      RunsOfJoin(u, xs);
      RunsOfJoin(u, ys);
      if MeetAsPair(u, xs, ys) {
        KeptTogether(a, b);
        SizeOfSplit(TextOf(Kept(a)));
        SizeOfSplit(TextOf(Kept(b)));
        SizeOfSplit(TextOf(Kept(Joined(a, b))));
      } else {
        KeptApart(a, b);
        TextOfJoined(Kept(a), Kept(b));
        SplitAtSpace(TextOf(Kept(a)), TextOf(Kept(b)));
      }
    }
  }

  lemma StripsNothing(u: Unicode)
    ensures StrippedWords(u, []) == []
  {
    assert PiecesOf(u, "") == Cut([""], "");
    assert Kept(Cut([""], "")) == Cut([""], "");
  }

  // ----- Plain words -----

  ghost predicate IsPlain(u: Unicode, w: string) {
    IsWord(w) && forall c :: c in w ==> u.isWordChar(c)
  }

  lemma {:induction false} PlainIsOneRun(u: Unicode, w: string)
    requires forall c :: c in w ==> u.isWordChar(c)
    ensures PiecesOf(u, w) == Cut([w], "")
  {
    if w != "" {
      PlainIsOneRun(u, w[1..]);
      assert w == [w[0]] + w[1..];
    }
  }

  lemma StrippedPlainWord(u: Unicode, w: string)
    requires IsPlain(u, w)
    ensures StrippedWords(u, [w]) == if IsLevel(w) then [] else [w]
  {
    PlainIsOneRun(u, w);
    SplitOfJoin([w]);
    assert Kept(Cut([w], "")) == Cut([if IsLevel(w) then "" else w], "");
  }

  // The words that are no level, neither by themselves nor with their neighbour.
  ghost function KeptWords(words: seq<string>): seq<string> {
    if words == [] then []
    else if IsLevel(words[0]) then KeptWords(words[1..])
    else if |words| > 1 && IsLevelPair(words[0], words[1]) then KeptWords(words[2..])
    else [words[0]] + KeptWords(words[1..])
  }

  /** Of words of word characters, stripping leaves those that are no level. */
  lemma {:induction false} PlainWordsAreKept(u: Unicode, words: seq<string>)
    requires ReadsWords(u) && forall w :: w in words ==> IsPlain(u, w)
    ensures StrippedWords(u, words) == KeptWords(words)
    decreases |words|
  {
    hide IsLevel, PiecesOf, StrippedWords;
    StripsNothing(u);
    if words != [] {
      var w, rest := words[0], words[1..];
      assert words == [w] + rest && w in words;
      PlainIsOneRun(u, w);
      StrippedPlainWord(u, w);
      PlainWordsAreKept(u, rest);
      StripsInParts(u, [w], rest);
      if rest != [] {
        assert rest[0] in words;
        PlainIsOneRun(u, rest[0]);
        LevelsAndPairs(w, rest[0]);
        if IsLevelPair(w, rest[0]) {
          assert words == [w, rest[0]] + words[2..];
          StrippedPair(u, w, rest[0]);
          PlainWordsAreKept(u, words[2..]);
          StripsInParts(u, [w, rest[0]], words[2..]);
        }
      }
    }
  }

  lemma StrippedPair(u: Unicode, w: string, x: string)
    requires ReadsWords(u) && IsPlain(u, w) && IsPlain(u, x) && IsLevelPair(w, x)
    ensures StrippedWords(u, [w, x]) == []
  {
    hide IsLevel;
    LevelsAndPairs(w, x);
    assert Join([w, x]) == w + " " + x;
    PlainIsOneRun(u, w);
    PlainIsOneRun(u, x);
    PiecesOfJoined(u, w, x);
    assert Kept(Joined(Cut([w], ""), Cut([x], ""))) == Cut([""], "");
  }

  // ----- Inserting a level -----

  lemma LevelIsPlain(u: Unicode, level: string)
    requires ReadsWords(u) && IsLevel(level)
    ensures IsPlain(u, level)
  {
    LevelsAreListed(level);
    LevelForms(level);
    hide IsLevel, LEVELS, ReadsWords;
    forall c | c in level ensures u.isWordChar(c) && !IsSpace(c) {
      LetterIsPlain(u, c);
    }
  }

  lemma LetterIsPlain(u: Unicode, c: char)
    requires ReadsWords(u) && ('a' <= c <= 'z' || '1' <= c <= '5')
    ensures u.isWordChar(c) && !IsSpace(c)
  {
  }

  /** Inserting a level changes nothing if and only if it does not come between the two runs of another one. */
  lemma LevelIsStripped(u: Unicode, xs: seq<string>, level: string, ys: seq<string>)
    requires ReadsWords(u) && IsLevel(level)
    ensures StrippedWords(u, xs + [level] + ys) == StrippedWords(u, xs + ys) <==> !MeetAsPair(u, xs, ys)
  {
    LevelIsPlain(u, level);
    hide PiecesOf, StrippedWords, IsLevel;
    PlainIsOneRun(u, level);
    StrippedPlainWord(u, level);
    if xs != [] {
      LevelsAndPairs(level, LastRun(u, xs[|xs| - 1]));
    }
    if ys != [] {
      LevelsAndPairs(level, FirstRun(u, ys[0]));
    }
    StripsInParts(u, xs, [level]);
    assert StrippedWords(u, xs + [level]) == StrippedWords(u, xs);
    StripsInParts(u, xs + [level], ys);
    StripsInParts(u, xs, ys);
    SizeAdds(StrippedWords(u, xs), StrippedWords(u, ys));
  }

  /**
   So a level inserted into a title leaves the stripped title as it is, unless it parts an "entry" or "mid" from a
   following "level".
   */
  lemma InsertedLevelIsStripped(u: Unicode, longer: string, title: string, xs: seq<string>, level: string, ys: seq<string>)
    requires ReadsWords(u) && IsLevel(level)
    requires TitleWords(u, longer) == xs + [level] + ys && TitleWords(u, title) == xs + ys
    ensures StrippedTitle(u, longer) == StrippedTitle(u, title) <==> !MeetAsPair(u, xs, ys)
  {
    hide StrippedTitle, StrippedWords, TitleWords, MeetAsPair, IsLevel;
    StrippedTitleIsTheKeptWords(u, longer);
    StrippedTitleIsTheKeptWords(u, title);
    LevelIsStripped(u, xs, level, ys);
    SplitOfJoin(StrippedWords(u, xs + [level] + ys));
    SplitOfJoin(StrippedWords(u, xs + ys));
  }

  // ----- Stripping twice -----

  // No level starts at any run.
  ghost predicate NoLevel(t: Pieces) {
    forall i :: 0 <= i <= |t.gaps| ==> Taken(After(t, i)) == 0
  }

  lemma NoLevelInLed(run: string, gap: char, rest: Pieces)
    requires NoLevel(rest) && Taken(Led(run, gap, rest)) == 0
    ensures NoLevel(Led(run, gap, rest))
  {
    hide Taken;
    var t := Led(run, gap, rest);
    forall i | 0 <= i <= |t.gaps| ensures Taken(After(t, i)) == 0 {
      if i == 0 {
        assert After(t, 0) == t;
      } else {
        assert After(t, i) == After(rest, i - 1);
      }
    }
  }

  lemma NoLevelInOne(run: string)
    requires !IsLevel(run)
    ensures NoLevel(Cut([run], ""))
  {
    assert After(Cut([run], ""), 0) == Cut([run], "");
  }

  // The first run that is kept: the first of the text, or an empty one.
  lemma FirstKept(t: Pieces)
    ensures Kept(t).runs[0] in ["", t.runs[0]]
    ensures |Kept(t).runs| > 1 && Taken(t) == 0 ==>
      |t.runs| > 1 && Kept(t).gaps[0] == t.gaps[0] && Kept(t).runs[1] in ["", t.runs[1]]
  {
    hide Taken, Kept;
    var n, first := if Taken(t) == 2 then 2 else 1, if Taken(t) == 0 then t.runs[0] else "";
    KeptAfter(t, first, n);
    if n < |t.runs| {
      var rest := After(t, n);
      KeptAfter(rest, if Taken(rest) == 0 then rest.runs[0] else "", if Taken(rest) == 2 then 2 else 1);
    }
  }

  lemma NothingTakenFirst(t: Pieces)
    ensures Taken(Kept(t)) == 0
  {
    hide Kept, IsLevel;
    FirstKept(t);
    KeptAfter(t, if Taken(t) == 0 then t.runs[0] else "", if Taken(t) == 2 then 2 else 1);
    var k := Kept(t);
    LevelsAndPairs("", "");
    if |k.runs| > 1 {
      LevelsAndPairs("", k.runs[1]);
      LevelsAndPairs("", k.runs[0]);
    }
  }

  /** What is kept holds no level. */
  lemma {:induction false} KeptHasNoLevel(t: Pieces)
    ensures NoLevel(Kept(t))
    decreases |t.gaps|
  {
    hide NoLevel, Kept, Taken, IsLevel;
    var n, first := if Taken(t) == 2 then 2 else 1, if Taken(t) == 0 then t.runs[0] else "";
    KeptAfter(t, first, n);
    NothingTakenFirst(t);
    if n == |t.runs| {
      NotTaken(Kept(t));
      NoLevelInOne(first);
    } else {
      KeptHasNoLevel(After(t, n));
      NoLevelInLed(first, t.gaps[n - 1], Kept(After(t, n)));
    }
  }

  lemma NotTaken(t: Pieces)
    requires Taken(t) == 0
    ensures !IsLevel(t.runs[0])
  {
  }

  lemma {:induction false} NoLevelStays(t: Pieces)
    requires NoLevel(t)
    ensures Kept(t) == t
    decreases |t.gaps|
  {
    hide Taken, Kept;
    assert After(t, 0) == t;
    KeptAfter(t, t.runs[0], 1);
    if t.gaps != "" {
      var rest := After(t, 1);
      forall i | 0 <= i <= |rest.gaps| ensures Taken(After(rest, i)) == 0 {
        assert After(rest, i) == After(t, i + 1);
      }
      NoLevelStays(rest);
    }
  }

  lemma NoLevelInParts(a: Pieces, b: Pieces)
    requires NoLevel(Joined(a, b))
    ensures NoLevel(a) && NoLevel(b)
  {
    hide IsLevel, IsLevelPair;
    var t := Joined(a, b);
    forall i | 0 <= i <= |a.gaps| ensures Taken(After(a, i)) == 0 {
      assert After(t, i) == Joined(After(a, i), b);
      assert Taken(After(t, i)) == 0;
    }
    forall i | 0 <= i <= |b.gaps| ensures Taken(After(b, i)) == 0 {
      assert After(b, i) == After(t, |a.runs| + i);
    }
  }

  // The pieces of a text are the only ones that it has.
  lemma {:induction false} PiecesOfText(u: Unicode, t: Pieces)
    requires AreRuns(u, t)
    ensures PiecesOf(u, TextOf(t)) == t
    decreases |t.gaps|, |t.runs[0]|
  {
    var run := t.runs[0];
    IsLed(t);
    if run == "" {
      if t.gaps == "" {
        OneRunIs("");
      } else {
        assert t.gaps[0] in t.gaps;
        PiecesOfText(u, After(t, 1));
        TextOfLed("", t.gaps[0], After(t, 1));
        hide TextOf, Led, After;
        assert TextOf(t)[1..] == TextOf(After(t, 1)) && TextOf(t)[0] == t.gaps[0];
      }
    } else {
      var less := Cut([run[1..]] + t.runs[1..], t.gaps);
      assert run[0] in run && run in t.runs && forall c :: c in run[1..] ==> c in run;
      assert [run[0]] + run[1..] == run;
      assert t == Prefixed(run[0], less);
      PiecesOfText(u, less);
      TextOfPrefixed(run[0], less);
      hide TextOf, Led, After, Prefixed;
      assert TextOf(t)[1..] == TextOf(less) && TextOf(t)[0] == run[0];
    }
  }

  lemma {:induction false} KeptAreRuns(u: Unicode, t: Pieces)
    requires AreRuns(u, t)
    ensures AreRuns(u, Kept(t))
    decreases |t.gaps|
  {
    hide Kept, Taken;
    var n, first := if Taken(t) == 2 then 2 else 1, if Taken(t) == 0 then t.runs[0] else "";
    KeptAfter(t, first, n);
    if n < |t.runs| {
      KeptAreRuns(u, After(t, n));
    }
  }

  // A text whose only white space is the space.
  ghost predicate IsSpaced(s: string) {
    forall c :: c in s && IsSpace(c) ==> c == ' '
  }

  lemma {:induction false} WordsHaveNoLevel(u: Unicode, s: string)
    requires ReadsWords(u) && IsSpaced(s) && NoLevel(PiecesOf(u, s))
    ensures forall w :: w in SplitWords(s) ==> NoLevel(PiecesOf(u, w))
    decreases |s|
  {
    hide PiecesOf, NoLevel, IsSpace, SplitWords;
    if ' ' in s {
      var i :| 0 <= i < |s| && s[i] == ' ';
      assert s == s[..i] + " " + s[i + 1..];
      PiecesOfJoined(u, s[..i], s[i + 1..]);
      NoLevelInParts(PiecesOf(u, s[..i]), PiecesOf(u, s[i + 1..]));
      SplitAtSpace(s[..i], s[i + 1..]);
      WordsHaveNoLevel(u, s[..i]);
      WordsHaveNoLevel(u, s[i + 1..]);
    } else {
      SplitOfOne(s);
    }
  }

  lemma WordWithoutLevelStays(u: Unicode, w: string)
    requires IsWord(w) && NoLevel(PiecesOf(u, w))
    ensures StrippedWords(u, [w]) == [w]
  {
    NoLevelStays(PiecesOf(u, w));
    TextOfPieces(u, w);
    SplitOfOne(w);
  }

  // Two words one after the other that meet as the runs of a level.
  ghost predicate HasPair(u: Unicode, words: seq<string>) {
    exists i :: 0 <= i < |words| - 1 && IsLevelPair(LastRun(u, words[i]), FirstRun(u, words[i + 1]))
  }

  /** Words that hold no level by themselves stay if and only if no two of them meet as one. */
  lemma {:induction false} WordsStayIff(u: Unicode, words: seq<string>)
    requires ReadsWords(u) && forall w :: w in words ==> StrippedWords(u, [w]) == [w]
    ensures StrippedWords(u, words) == words <==> !HasPair(u, words)
    ensures Size(StrippedWords(u, words)) <= Size(words)
  {
    hide StrippedWords, IsLevelPair, FirstRun, LastRun;
    StripsNothing(u);
    if words != [] {
      var w, rest := words[0], words[1..];
      assert words == [w] + rest && w in words;
      WordsStayIff(u, rest);
      StripsInParts(u, [w], rest);
      assert Size([w]) == |w|;
      SizeAdds([w], StrippedWords(u, rest));
      SizeAdds([w], rest);
      PairFirstOrLater(u, words);
      if !MeetAsPair(u, [w], rest) {
        assert StrippedWords(u, words) == [w] + StrippedWords(u, rest);
        assert ([w] + StrippedWords(u, rest))[1..] == StrippedWords(u, rest);
      }
    }
  }

  lemma PairFirstOrLater(u: Unicode, words: seq<string>)
    requires words != []
    ensures HasPair(u, words) <==> MeetAsPair(u, [words[0]], words[1..]) || HasPair(u, words[1..])
  {
    hide IsLevelPair, FirstRun, LastRun;
    var rest := words[1..];
    if MeetAsPair(u, [words[0]], rest) {
      assert IsLevelPair(LastRun(u, words[0]), FirstRun(u, words[0 + 1]));
    }
    if HasPair(u, rest) {
      var i :| 0 <= i < |rest| - 1 && IsLevelPair(LastRun(u, rest[i]), FirstRun(u, rest[i + 1]));
      assert rest[i] == words[i + 1] && rest[i + 1] == words[(i + 1) + 1];
    }
    if HasPair(u, words) {
      var i :| 0 <= i < |words| - 1 && IsLevelPair(LastRun(u, words[i]), FirstRun(u, words[i + 1]));
      if i > 0 {
        assert rest[i - 1] == words[i] && rest[(i - 1) + 1] == words[i + 1];
      }
    }
  }

  // Runs without white space, and gaps whose only white space is the space.
  ghost predicate AreSpaced(t: Pieces) {
    && (forall run, c :: run in t.runs && c in run ==> !IsSpace(c))
    && IsSpaced(t.gaps)
  }

  // The beginning of a token: what is kept of it, and what it was.
  ghost predicate IsStart(u: Unicode, kept: string, was: string) {
    && (forall c :: c in kept || c in was ==> !IsSpace(c))
    && ((kept == "" && was == "") || exists c :: c in kept && !u.isWordChar(c))
  }

  lemma TokenIsRun(u: Unicode, kept: string, was: string, run: string, w: string)
    requires IsStart(u, kept, was) && (forall c :: c in run ==> !IsSpace(c)) && forall c :: c in w ==> u.isWordChar(c)
    requires w in SplitWords(kept + run)
    ensures kept == "" && was == "" && w == run != ""
  {
    SplitOfOne(kept + run);
    assert w == kept + run;
    assert forall c :: c in kept ==> c in w;
  }

  lemma TextIs(t: Pieces)
    requires t.gaps != ""
    ensures TextOf(t) == t.runs[0] + [t.gaps[0]] + TextOf(After(t, 1))
    ensures |t.gaps| > 1 ==>
      TextOf(t) == t.runs[0] + [t.gaps[0]] + t.runs[1] + [t.gaps[1]] + TextOf(After(t, 2))
  {
    if |t.gaps| > 1 {
      assert After(After(t, 1), 1) == After(t, 2);
    }
  }

  // The text up to the gap after the first runs.
  ghost function Before(was: string, t: Pieces, n: nat): string
    requires 1 <= n <= 2 && n <= |t.runs|
  {
    was + t.runs[0] + if n == 2 then [t.gaps[0]] + t.runs[1] else ""
  }

  lemma TextBeforeOne(was: string, t: Pieces)
    requires t.gaps != ""
    ensures was + TextOf(t) == Before(was, t, 1) + [t.gaps[0]] + TextOf(After(t, 1))
  {
    IsLed(t);
    TextOfLed(t.runs[0], t.gaps[0], After(t, 1));
    hide TextOf, After;
    assert was + t.runs[0] + "" == was + t.runs[0];
  }

  lemma TextBefore(was: string, t: Pieces, n: nat)
    requires 1 <= n <= 2 && n <= |t.gaps|
    ensures was + TextOf(t) == Before(was, t, n) + [t.gaps[n - 1]] + TextOf(After(t, n))
    ensures n == 2 && t.gaps[0] == ' ' ==>
      was + TextOf(t) == (was + t.runs[0]) + " " + (t.runs[1] + [t.gaps[1]] + TextOf(After(t, 2)))
  {
    TextBeforeOne(was, t);
    if n == 2 {
      TextBeforeOne(Before(was, t, 1) + [t.gaps[0]], After(t, 1));
      assert After(After(t, 1), 1) == After(t, 2) && After(t, 1).runs[0] == t.runs[1] && After(t, 1).gaps[0] == t.gaps[1];
      hide TextOf, After;
      assert was + t.runs[0] + "" == was + t.runs[0];
    }
  }

  lemma PartsAreSpaced(u: Unicode, t: Pieces, n: nat)
    requires AreRuns(u, t) && AreSpaced(t) && 1 <= n <= 2 && n <= |t.gaps|
    ensures AreRuns(u, After(t, n)) && AreSpaced(After(t, n))
    ensures !u.isWordChar(t.gaps[n - 1]) && (t.gaps[n - 1] == ' ' || !IsSpace(t.gaps[n - 1]))
    ensures forall c :: c in t.runs[0] || c in t.runs[1] ==> !IsSpace(c)
    ensures n == 2 && t.gaps[0] != ' ' ==> !IsSpace(t.gaps[0])
  {
    assert t.gaps[n - 1] in t.gaps && t.gaps[0] in t.gaps && t.runs[0] in t.runs && t.runs[1] in t.runs;
  }

  // A token of word characters that stripping leaves was a token before.
  lemma {:induction false} TokensStay(u: Unicode, kept: string, was: string, t: Pieces, w: string)
    requires ReadsWords(u) && AreRuns(u, t) && AreSpaced(t) && IsStart(u, kept, was)
    requires (forall c :: c in w ==> u.isWordChar(c)) && w in SplitWords(kept + TextOf(Kept(t)))
    ensures w in SplitWords(was + TextOf(t))
    decreases |t.gaps|
  {
    hide Kept, Taken, TextOf, SplitWords, IsSpace, ReadsWords, AreRuns, AreSpaced;
    var n, first := if Taken(t) == 2 then 2 else 1, if Taken(t) == 0 then t.runs[0] else "";
    KeptAfter(t, first, n);
    if n == |t.runs| {
      LastTokenStays(u, kept, was, t, first, w);
    } else {
      var g, rest := t.gaps[n - 1], After(t, n);
      var k := TextOf(Kept(rest));
      PartsAreSpaced(u, t, n);
      TextOfLed(first, g, Kept(rest));
      TextBefore(was, t, n);
      if g == ' ' {
        assert kept + TextOf(Kept(t)) == (kept + first) + " " + k;
        SplitAtSpace(kept + first, k);
        SplitAtSpace(Before(was, t, n), TextOf(rest));
        if w in SplitWords(kept + first) {
          TokenIsRun(u, kept, was, first, w);
          assert Before(was, t, n) == w;
          SplitOfOne(w);
        } else {
          assert "" + k == k && "" + TextOf(rest) == TextOf(rest);
          TokensStay(u, "", "", rest, w);
        }
      } else {
        assert kept + TextOf(Kept(t)) == (kept + first + [g]) + k;
        var goneOn := if n == 2 && t.gaps[0] == ' ' then t.runs[1] else Before(was, t, n);
        assert forall c :: c in kept + first + goneOn ==> !IsSpace(c);
        StartGoesOn(u, kept + first, goneOn, g);
        TokensStay(u, kept + first + [g], goneOn + [g], rest, w);
        if n == 2 && t.gaps[0] == ' ' {
          SplitAtSpace(was + t.runs[0], t.runs[1] + [g] + TextOf(rest));
        }
      }
    }
  }

  lemma StartGoesOn(u: Unicode, kept: string, was: string, gap: char)
    requires (forall c :: c in kept + was ==> !IsSpace(c)) && !IsSpace(gap) && !u.isWordChar(gap)
    ensures IsStart(u, kept + [gap], was + [gap])
  {
    assert gap in kept + [gap];
  }

  lemma LastTokenStays(u: Unicode, kept: string, was: string, t: Pieces, first: string, w: string)
    requires AreRuns(u, t) && AreSpaced(t) && IsStart(u, kept, was) && |t.runs| <= 2
    requires first == "" || (t.gaps == "" && first == t.runs[0])
    requires (forall c :: c in w ==> u.isWordChar(c)) && w in SplitWords(kept + TextOf(Cut([first], "")))
    ensures w in SplitWords(was + TextOf(t))
  {
    assert t.runs[0] in t.runs;
    OneRunIs(first);
    TokenIsRun(u, kept, was, first, w);
    OneRunIs(t.runs[0]);
    assert t == Cut([w], "") && was + TextOf(t) == w;
    SplitOfOne(w);
  }

  // ----- The stripped title as a title -----

  lemma AbbreviationForms(token: string)
    requires token in TITLE_ABBREVIATIONS
    ensures '.' in token || forall c :: c in token ==> 'a' <= c <= 'z'
  {
  }

  lemma {:induction false} GapsAreInText(u: Unicode, s: string)
    ensures forall c :: c in PiecesOf(u, s).gaps ==> c in s
  {
    if s != "" {
      GapsAreInText(u, s[1..]);
    }
  }

  lemma {:induction false} KeptCharacters(t: Pieces)
    ensures forall c :: c in TextOf(Kept(t)) ==> c in TextOf(t)
    decreases |t.gaps|
  {
    hide Kept, Taken, TextOf;
    var n, first := if Taken(t) == 2 then 2 else 1, if Taken(t) == 0 then t.runs[0] else "";
    KeptAfter(t, first, n);
    if t.gaps == "" {
      OneRunIs(first);
      OneRunIs(t.runs[0]);
      assert t == Cut([t.runs[0]], "");
    } else {
      TextIs(t);
      if n == |t.runs| {
        OneRunIs(first);
      } else {
        KeptCharacters(After(t, n));
        TextOfLed(first, t.gaps[n - 1], Kept(After(t, n)));
      }
    }
  }

  lemma PiecesAreSpaced(u: Unicode, s: string)
    requires ReadsWords(u) && IsSpaced(s)
    ensures AreSpaced(PiecesOf(u, s))
  {
    hide PiecesOf, IsSpace;
    GapsAreInText(u, s);
  }

  lemma JoinIsSpaced(words: seq<string>)
    requires AreWords(words)
    ensures IsSpaced(Join(words))
  {
  }

  lemma StrippedWordsAreClean(u: Unicode, words: seq<string>)
    requires AreWords(words) && AreClean(u, words)
    ensures AreClean(u, StrippedWords(u, words))
  {
    hide Kept, PiecesOf, TextOf, IsSpace, IsCleanChar, Join;
    var t := PiecesOf(u, Join(words));
    TextOfPieces(u, Join(words));
    KeptCharacters(t);
    forall w, c | w in StrippedWords(u, words) && c in w ensures IsCleanChar(u, c) {
      assert IsWord(w) && !IsSpace(c) && c in Join(words);
      SpaceSeparates();
    }
  }

  /** The words of a stripped title are final: normalised as a title, they stay. */
  lemma StrippedWordsAreTitleWords(u: Unicode, title: string)
    requires ReadsWords(u) && FoldsOnce(u)
    ensures var words := StrippedWords(u, TitleWords(u, title));
      TitleWords(u, Join(words)) == words
  {
    hide TITLE_ABBREVIATIONS, PUNCTUATION, Kept, PiecesOf, TextOf, FoldsOnce, Clean, IsSpace, IsFolded, TitleWords, StrippedWords;
    var words := TitleWords(u, title);
    var stripped := StrippedWords(u, words);
    TitleWordsAreClean(u, title);
    StrippedWordsAreClean(u, words);
    forall w | w in stripped ensures w !in TITLE_ABBREVIATIONS {
      StrippedWordIsNoAbbreviation(u, words, w);
    }
    WordsAreTheirTitleWords(u, stripped);
  }

  lemma StrippedWordIsNoAbbreviation(u: Unicode, words: seq<string>, w: string)
    requires ReadsWords(u) && AreWords(words) && AreClean(u, words) && w in StrippedWords(u, words)
    requires forall x :: x in words ==> x !in TITLE_ABBREVIATIONS
    ensures w !in TITLE_ABBREVIATIONS
  {
    hide TITLE_ABBREVIATIONS, Kept, PiecesOf, TextOf, IsSpace, IsFolded, Join, PUNCTUATION;
    if w in TITLE_ABBREVIATIONS {
      AbbreviationForms(w);
      StrippedWordsAreClean(u, words);
      DotIsPunctuation();
      assert forall c :: c in w ==> 'a' <= c <= 'z';
      var t := PiecesOf(u, Join(words));
      TextOfPieces(u, Join(words));
      JoinIsSpaced(words);
      PiecesAreSpaced(u, Join(words));
      assert "" + TextOf(Kept(t)) == TextOf(Kept(t)) && "" + TextOf(t) == TextOf(t);
      TokensStay(u, "", "", t, w);
      SplitOfJoin(words);
    }
  }

  lemma DotIsPunctuation()
    ensures '.' in PUNCTUATION
  {
    assert PUNCTUATION[0] == '.';
  }

  lemma WordsAreTheirTitleWords(u: Unicode, words: seq<string>)
    requires FoldsOnce(u) && AreWords(words) && AreClean(u, words)
    requires forall w :: w in words ==> w !in TITLE_ABBREVIATIONS
    ensures TitleWords(u, Join(words)) == words
  {
    hide TITLE_ABBREVIATIONS, PUNCTUATION, FoldsOnce, Clean, IsCleanChar;
    CleanOfJoin(u, words);
    SplitOfJoin(words);
    FinalTokensStay(words);
    JoinIsTidy(words);
  }

  /** Stripping a stripped title changes nothing if and only if no two of its words meet as a level. */
  lemma StrippedTwiceIff(u: Unicode, title: string)
    requires ReadsWords(u) && FoldsOnce(u)
    ensures StrippedTitle(u, StrippedTitle(u, title)) == StrippedTitle(u, title) <==>
      !HasPair(u, StrippedWords(u, TitleWords(u, title)))
  {
    hide StrippedTitle, StrippedWords, TitleWords, HasPair, FoldsOnce, ReadsWords;
    var words := TitleWords(u, title);
    var stripped := StrippedWords(u, words);
    StrippedTitleIsTheKeptWords(u, title);
    StrippedTitleIsTheKeptWords(u, StrippedTitle(u, title));
    StrippedWordsAreTitleWords(u, title);
    TitleWordsAreClean(u, title);
    forall w | w in stripped ensures StrippedWords(u, [w]) == [w] {
      StrippedWordStays(u, words, w);
    }
    WordsStayIff(u, stripped);
    SplitOfJoin(stripped);
    SplitOfJoin(StrippedWords(u, stripped));
  }

  lemma StrippedWordStays(u: Unicode, words: seq<string>, w: string)
    requires ReadsWords(u) && AreWords(words) && w in StrippedWords(u, words)
    ensures StrippedWords(u, [w]) == [w]
  {
    hide Kept, PiecesOf, TextOf, IsSpace, Join, NoLevel;
    var t := PiecesOf(u, Join(words));
    TextOfPieces(u, Join(words));
    KeptHasNoLevel(t);
    KeptAreRuns(u, t);
    PiecesOfText(u, Kept(t));
    JoinIsSpaced(words);
    KeptCharacters(t);
    WordsHaveNoLevel(u, TextOf(Kept(t)));
    assert IsWord(w);
    WordWithoutLevelStays(u, w);
  }

  lemma EntryIsNoLevel()
    ensures !IsLevel("entry") && IsLevel("senior") && !IsLevel("level") && IsLevelPair("entry", "level")
    ensures !IsLevelPair("entry", "senior")
  {
  }

  lemma EntrySeniorLevel()
    ensures KeptWords(["entry", "senior", "level"]) == ["entry", "level"]
    ensures KeptWords(["entry", "level"]) == []
  {
    hide IsLevel, IsLevelPair;
    EntryIsNoLevel();
    assert ["entry", "senior", "level"][1..] == ["senior", "level"] && ["senior", "level"][1..] == ["level"];
    assert ["level"][1..] == [] && ["entry", "level"][2..] == [];
    assert KeptWords(["level"]) == ["level"];
    assert KeptWords(["senior", "level"]) == ["level"];
  }

  /** The words left of "entry senior level" make a level, so stripping it twice is not stripping it once. */
  lemma StrippingMayUncoverALevel(u: Unicode)
    requires ReadsWords(u)
    ensures StrippedWords(u, ["entry", "senior", "level"]) == ["entry", "level"] && HasPair(u, ["entry", "level"])
    ensures StrippedWords(u, ["entry", "level"]) == []
  {
    assert forall w :: w in ["entry", "senior", "level"] ==> IsPlain(u, w);
    PlainIsOneRun(u, "entry");
    PlainIsOneRun(u, "level");
    assert IsLevelPair(LastRun(u, ["entry", "level"][0]), FirstRun(u, ["entry", "level"][0 + 1]));
    hide *;
    EntrySeniorLevel();
    PlainWordsAreKept(u, ["entry", "senior", "level"]);
    PlainWordsAreKept(u, ["entry", "level"]);
  }
}
