/** The string operations of Python that the models share. */
module Text {

  // The characters on which `str.split()`, `str.strip()` and the regex class \s agree.
  predicate IsSpace(c: char) {
    var n := c as int;
    || 9 <= n <= 13 || 28 <= n <= 32 || n == 0x85 || n == 0xA0 || n == 0x1680 || 0x2000 <= n <= 0x200A
    || n == 0x2028 || n == 0x2029 || n == 0x202F || n == 0x205F || n == 0x3000
  }

  // A non-empty string that `split` leaves in one piece.
  predicate IsWord(s: string) {
    s != "" && forall c :: c in s ==> !IsSpace(c)
  }

  predicate AreWords(words: seq<string>) {
    forall w :: w in words ==> IsWord(w)
  }

  function LeadingWord(s: string): (n: nat)
    ensures n <= |s|
    ensures forall i :: 0 <= i < n ==> !IsSpace(s[i])
    ensures n < |s| ==> IsSpace(s[n])
  {
    if s == "" || IsSpace(s[0]) then 0 else 1 + LeadingWord(s[1..])
  }

  /** str.split() */
  function SplitWords(s: string): (words: seq<string>)
    ensures AreWords(words)
    ensures forall w, c :: w in words && c in w ==> c in s
    decreases |s|
  {
    if s == "" then []
    else if IsSpace(s[0]) then SplitWords(s[1..])
    else
      var n := LeadingWord(s);
      [s[..n]] + SplitWords(s[n..])
  }

  /** " ".join(words) */
  function Join(words: seq<string>): (s: string)
    ensures forall c :: c in s ==> c == ' ' || exists w :: w in words && c in w
  {
    if words == [] then ""
    else if |words| == 1 then words[0]
    else words[0] + " " + Join(words[1..])
  }

  function Strip(s: string): (t: string)
    ensures forall c :: c in t ==> c in s
    decreases |s|
  {
    if s == "" then ""
    else if IsSpace(s[0]) then Strip(s[1..])
    else if IsSpace(s[|s| - 1]) then Strip(s[..|s| - 1])
    else s
  }

  /** re.sub(r"\s+", " ", s) */
  function CollapseSpaces(s: string): (t: string)
    ensures forall c :: c in t ==> c == ' ' || c in s
  {
    if s == "" then ""
    else if !IsSpace(s[0]) then [s[0]] + CollapseSpaces(s[1..])
    else if |s| > 1 && IsSpace(s[1]) then CollapseSpaces(s[1..])
    else " " + CollapseSpaces(s[1..])
  }

  lemma {:induction false} LeadingWordOf(w: string, rest: string)
    requires IsWord(w) && (rest == "" || IsSpace(rest[0]))
    ensures LeadingWord(w + rest) == |w|
  {
    assert (w + rest)[1..] == w[1..] + rest;
    if |w| > 1 {
      LeadingWordOf(w[1..], rest);
    } else {
      assert w[1..] + rest == rest;
    }
  }

  lemma SplitFirstWord(w: string, rest: string)
    requires IsWord(w) && (rest == "" || IsSpace(rest[0]))
    ensures SplitWords(w + rest) == [w] + SplitWords(rest)
  {
    LeadingWordOf(w, rest);
    assert (w + rest)[..|w|] == w && (w + rest)[|w|..] == rest;
  }

  // A text without white space is one word, or none.
  lemma SplitOfOne(s: string)
    requires forall c :: c in s ==> !IsSpace(c)
    ensures SplitWords(s) == if s == "" then [] else [s]
  {
    if s != "" {
      assert s + "" == s;
      SplitFirstWord(s, "");
    }
  }

  /** Splitting undoes joining, for words. */
  lemma {:induction false} SplitOfJoin(words: seq<string>)
    requires AreWords(words)
    ensures SplitWords(Join(words)) == words
  {
    if |words| == 1 {
      assert words[0] + "" == words[0];
      SplitFirstWord(words[0], "");
    } else if |words| > 1 {
      var rest := Join(words[1..]);
      SplitOfJoin(words[1..]);
      assert words[0] + " " + rest == words[0] + (" " + rest);
      SplitFirstWord(words[0], " " + rest);
      assert (" " + rest)[1..] == rest;
      assert words == [words[0]] + words[1..];
    }
  }

  lemma {:induction false} CollapseAfterWord(w: string, rest: string)
    requires forall c :: c in w ==> !IsSpace(c)
    ensures CollapseSpaces(w + rest) == w + CollapseSpaces(rest)
  {
    if w == "" {
      assert w + rest == rest;
    } else {
      assert (w + rest)[1..] == w[1..] + rest;
      CollapseAfterWord(w[1..], rest);
    }
  }

  /** Joined words have no spaces to collapse and none to strip. */
  lemma {:induction false} JoinIsTidy(words: seq<string>)
    requires AreWords(words)
    ensures CollapseSpaces(Join(words)) == Join(words) && Strip(Join(words)) == Join(words)
    ensures words != [] ==> Join(words) != "" && !IsSpace(Join(words)[0]) && !IsSpace(Join(words)[|Join(words)| - 1])
  {
    assert words != [] ==> IsWord(words[0]);
    if |words| == 1 {
      CollapseAfterWord(words[0], "");
      assert words[0] + "" == words[0];
    } else if |words| > 1 {
      var rest := Join(words[1..]);
      JoinIsTidy(words[1..]);
      CollapseAfterWord(words[0], " " + rest);
      assert words[0] + " " + rest == words[0] + (" " + rest);
      assert (" " + rest)[1..] == rest && (" " + rest)[1] == rest[0];
      assert Join(words)[0] == words[0][0] && Join(words)[|Join(words)| - 1] == rest[|rest| - 1];
    }
  }

  /** A space between two texts separates their words. */
  lemma {:induction false} SplitAtSpace(a: string, b: string)
    ensures SplitWords(a + " " + b) == SplitWords(a) + SplitWords(b)
    decreases |a|
  {
    var t := a + " " + b;
    if a == "" {
      assert t[1..] == b;
    } else if IsSpace(a[0]) {
      assert t[1..] == a[1..] + " " + b;
      SplitAtSpace(a[1..], b);
    } else {
      var n := LeadingWord(a);
      var w, rest := a[..n], a[n..];
      assert a == w + rest && t == w + (rest + " " + b);
      SplitFirstWord(w, rest);
      SplitFirstWord(w, rest + " " + b);
      SplitAtSpace(rest, b);
    }
  }

  lemma {:induction false} StripAfterWord(w: string, y: string)
    requires IsWord(w) && y != "" && !IsSpace(y[0])
    ensures Strip(w + " " + y) == w + " " + Strip(y)
    decreases |y|
  {
    var t := w + " " + y;
    assert t[0] == w[0] && t[|t| - 1] == y[|y| - 1];
    assert w[0] in w;
    if IsSpace(y[|y| - 1]) {
      assert t[..|t| - 1] == w + " " + y[..|y| - 1];
      StripAfterWord(w, y[..|y| - 1]);
    }
  }

  // What is left of a text that starts with a space, once its spaces are collapsed.
  lemma {:induction false} CollapsedSpaceFirst(s: string) returns (y: string)
    requires s != "" && IsSpace(s[0])
    ensures CollapseSpaces(s) == " " + y && (y == "" || !IsSpace(y[0]))
    decreases |s|
  {
    if |s| > 1 && IsSpace(s[1]) {
      y := CollapsedSpaceFirst(s[1..]);
    } else {
      y := CollapseSpaces(s[1..]);
    }
  }

  /** Collapsing and stripping spaces is joining the words. */
  lemma {:induction false} TidiedIsJoined(s: string)
    ensures Strip(CollapseSpaces(s)) == Join(SplitWords(s))
    decreases |s|
  {
    if s == "" {
    } else if IsSpace(s[0]) {
      TidiedIsJoined(s[1..]);
      var t := CollapseSpaces(s);
      assert t == CollapseSpaces(s[1..]) || (t == " " + CollapseSpaces(s[1..]) && t[1..] == CollapseSpaces(s[1..]));
    } else {
      var n := LeadingWord(s);
      var w, rest := s[..n], s[n..];
      assert s == w + rest;
      SplitFirstWord(w, rest);
      CollapseAfterWord(w, rest);
      TidiedIsJoined(rest);
      if rest == "" {
        assert w + "" == w;
        JoinIsTidy([w]);
      } else {
        var y := CollapsedSpaceFirst(rest);
        assert (" " + y)[1..] == y;
        WordThenRest(w, y, SplitWords(rest));
      }
    }
  }

  lemma WordThenRest(w: string, y: string, words: seq<string>)
    requires IsWord(w) && AreWords(words) && (y == "" || !IsSpace(y[0])) && Strip(y) == Join(words)
    ensures Strip(w + (" " + y)) == Join([w] + words)
  {
    JoinIsTidy([w]);
    JoinIsTidy(words);
    if y == "" {
      var t := w + (" " + y);
      assert t[..|t| - 1] == w && t[0] == w[0];
      assert words == [] && [w] + words == [w];
    } else {
      assert w + (" " + y) == w + " " + y;
      StripAfterWord(w, y);
      StripKeepsFirst(y);
      assert words != [] && ([w] + words)[1..] == words;
    }
  }

  lemma {:induction false} StripKeepsFirst(y: string)
    requires y != "" && !IsSpace(y[0])
    ensures Strip(y) != "" && Strip(y)[0] == y[0]
    decreases |y|
  {
    if IsSpace(y[|y| - 1]) {
      StripKeepsFirst(y[..|y| - 1]);
    }
  }

  function IndexOf(s: string, c: char): (n: nat)
    ensures n <= |s|
  {
    if s == "" || s[0] == c then 0 else 1 + IndexOf(s[1..], c)
  }

  lemma {:induction false} IndexOfSeparator(sep: char, a: string, b: string)
    requires sep !in a
    ensures IndexOf(a + [sep] + b, sep) == |a|
  {
    if a != "" {
      assert (a + [sep] + b)[1..] == a[1..] + [sep] + b;
      IndexOfSeparator(sep, a[1..], b);
    }
  }

  /** A text cut at a separator that its first part does not contain has one reading. */
  lemma CutAtFirst(sep: char, a: string, b: string, c: string, d: string)
    requires sep !in a && sep !in c
    requires a + [sep] + b == c + [sep] + d
    ensures a == c && b == d
  {
    var s := a + [sep] + b;
    IndexOfSeparator(sep, a, b);
    IndexOfSeparator(sep, c, d);
    assert a == s[..|a|] && c == s[..|c|];
    assert b == s[|a| + 1..] && d == s[|c| + 1..];
  }
}
