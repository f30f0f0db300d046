/**
 The string operations the wire format rests on: Ruby's String#split with no
 pattern, Array#join(" "), and the token regex of the quoting test.
 */
module Text {

  /** The characters Ruby's String#split (with no pattern) separates words on. */
  predicate IsSpace(c: char) {
    c == ' ' || c == '\t' || c == '\n' || c == '\U{B}' || c == '\U{C}' || c == '\r'
  }

  predicate NoSpace(w: string) {
    forall i :: 0 <= i < |w| ==> !IsSpace(w[i])
  }

  /** A word as split produces it: non-empty and free of separators. */
  predicate IsWord(w: string) {
    w != [] && NoSpace(w)
  }

  /** The non-space characters of s, in order. */
  function Squeeze(s: string): string {
    if s == [] then [] else (if IsSpace(s[0]) then [] else [s[0]]) + Squeeze(s[1..])
  }

  function Concat(ws: seq<string>): string {
    if ws == [] then [] else ws[0] + Concat(ws[1..])
  }

  /** The length of the run of non-space characters that begins s. */
  function WordLength(s: string): (n: nat)
    ensures n <= |s|
    ensures NoSpace(s[..n])
    ensures n < |s| ==> IsSpace(s[n])
  {
    if s == [] || IsSpace(s[0]) then 0 else 1 + WordLength(s[1..])
  }

  lemma {:induction false} SqueezeAppend(s: string, t: string)
    ensures Squeeze(s + t) == Squeeze(s) + Squeeze(t)
    decreases |s|
  {
    if s != [] {
      assert (s + t)[0] == s[0];
      assert (s + t)[1..] == s[1..] + t;
      SqueezeAppend(s[1..], t);
      var h := if IsSpace(s[0]) then [] else [s[0]];
      assert Squeeze(s + t) == h + (Squeeze(s[1..]) + Squeeze(t));
      assert Squeeze(s) == h + Squeeze(s[1..]);
    } else {
      assert s + t == t;
    }
  }

  lemma {:induction false} SqueezeWord(w: string)
    requires NoSpace(w)
    ensures Squeeze(w) == w
    decreases |w|
  {
    if w != [] {
      SqueezeWord(w[1..]);
      assert w == [w[0]] + w[1..];
    }
  }

  /** Where a left-to-right scan of a text stands: before any word, inside a word, or in a gap after one. */
  datatype Scan = BeforeWords | InWord | AfterWord

  /**
   The text with its leading and trailing separators removed and every inner
   run of separators replaced by a single space.
   */
  function Collapse(s: string): string {
    CollapseFrom(s, BeforeWords)
  }

  /** Collapse, scanning s from the given state: a pending gap becomes one space before the next word character. */
  function CollapseFrom(s: string, st: Scan): string
    decreases |s|
  {
    if s == [] then []
    else if IsSpace(s[0]) then CollapseFrom(s[1..], if st == BeforeWords then BeforeWords else AfterWord)
    else (if st == AfterWord then " " else "") + [s[0]] + CollapseFrom(s[1..], InWord)
  }

  /**
   String#split: the maximal runs of non-space characters of s, in order.
   Every piece is a word, together they hold exactly the non-space characters
   of s, and joined by single spaces they give the collapsed text, so no run is
   cut in two and no separator is lost between runs.
   */
  function Split(s: string): (ws: seq<string>)
    ensures forall i :: 0 <= i < |ws| ==> IsWord(ws[i])
    ensures Concat(ws) == Squeeze(s)
    ensures Join(ws) == Collapse(s)
    decreases |s|
  {
    if s == [] then []
    else if IsSpace(s[0]) then
      assert Squeeze(s) == Squeeze(s[1..]);
      Split(s[1..])
    else
      var n := WordLength(s);
      SplitStep(s, s[..n], s[n..], Split(s[n..]));
      [s[..n]] + Split(s[n..])
  }

  /** The step of Split: a leading word followed by the words of the rest meets Split's contract. */
  lemma SplitStep(s: string, w: string, rest: string, ws: seq<string>)
    requires s == w + rest && IsWord(w) && (rest == [] || IsSpace(rest[0]))
    requires forall i :: 0 <= i < |ws| ==> IsWord(ws[i])
    requires Concat(ws) == Squeeze(rest) && Join(ws) == Collapse(rest)
    ensures forall i :: 0 <= i < |[w] + ws| ==> IsWord(([w] + ws)[i])
    ensures Concat([w] + ws) == Squeeze(s)
    ensures Join([w] + ws) == Collapse(s)
  {
    assert ([w] + ws)[1..] == ws;
    SqueezeAppend(w, rest);
    SqueezeWord(w);
    SplitStepJoin(s, w, rest, ws);
  }

  lemma SplitStepJoin(s: string, w: string, rest: string, ws: seq<string>)
    requires s == w + rest && IsWord(w) && (rest == [] || IsSpace(rest[0]))
    requires ws != [] ==> IsWord(ws[0])
    requires Join(ws) == Collapse(rest)
    ensures Join([w] + ws) == Collapse(s)
  {
    CollapseWord(w, rest, BeforeWords);
    CollapseGap(rest);
    JoinCons(w, ws);
  }

  /** Array#join(" "): the pieces separated by single spaces. */
  function Join(ws: seq<string>): string {
    if ws == [] then "" else if |ws| == 1 then ws[0] else ws[0] + " " + Join(ws[1..])
  }

  /** Joining a word in front of a list adds one space only when the list joins to something. */
  lemma JoinCons(w: string, ws: seq<string>)
    requires ws != [] ==> IsWord(ws[0])
    ensures Join([w] + ws) == if Join(ws) == [] then w else w + " " + Join(ws)
  {
    assert ([w] + ws)[1..] == ws;
    if ws != [] {
      assert |Join(ws)| >= |ws[0]|;
    }
  }

  /** A run of word characters is copied through, and the scan ends inside a word. */
  lemma {:induction false} CollapseWord(w: string, rest: string, st: Scan)
    requires IsWord(w) && st != AfterWord
    ensures CollapseFrom(w + rest, st) == w + CollapseFrom(rest, InWord)
    decreases |w|
  {
    var s := w + rest;
    assert s[0] == w[0] && s[1..] == w[1..] + rest;
    if |w| > 1 {
      CollapseWord(w[1..], rest, InWord);
      assert w == [w[0]] + w[1..];
    } else {
      assert w[1..] + rest == rest;
    }
  }

  /** After a word, the rest of the text (empty or starting at a separator) collapses to a space and its own collapse, if any. */
  lemma CollapseGap(rest: string)
    requires rest == [] || IsSpace(rest[0])
    ensures CollapseFrom(rest, InWord) == if Collapse(rest) == [] then [] else " " + Collapse(rest)
  {
    if rest != [] {
      CollapseAfter(rest[1..]);
    }
  }

  /** In a gap after a word, the scan yields the collapse of the rest, preceded by a space if it is not empty. */
  lemma {:induction false} CollapseAfter(s: string)
    ensures CollapseFrom(s, AfterWord) == if Collapse(s) == [] then [] else " " + Collapse(s)
    decreases |s|
  {
    if s != [] && IsSpace(s[0]) {
      CollapseAfter(s[1..]);
    }
  }

  /** The words of a text are the only list of words that joins to its collapse. */
  lemma SplitUnique(s: string, vs: seq<string>)
    requires forall i :: 0 <= i < |vs| ==> IsWord(vs[i])
    requires Join(vs) == Collapse(s)
    ensures vs == Split(s)
  {
    SplitJoin(vs);
    SplitJoin(Split(s));
  }

  /** Text made only of separators splits into nothing. */
  lemma {:induction false} SplitBlank(s: string)
    requires forall i :: 0 <= i < |s| ==> IsSpace(s[i])
    ensures Split(s) == []
  {
    if s != [] {
      SplitBlank(s[1..]);
    }
  }

  /** Splitting undoes joining, for words. */
  lemma {:induction false} SplitJoin(ws: seq<string>)
    requires forall i :: 0 <= i < |ws| ==> IsWord(ws[i])
    ensures Split(Join(ws)) == ws
  {
    if |ws| == 1 {
      WordLengthOf(ws[0], "");
      assert ws[0] + "" == ws[0];
    } else if |ws| > 1 {
      var w, rest := ws[0], Join(ws[1..]);
      var s := w + " " + rest;
      WordLengthOf(w, " " + rest);
      assert s == w + (" " + rest);
      assert s[..|w|] == w;
      assert s[|w|..] == " " + rest;
      assert (" " + rest)[1..] == rest;
      SplitJoin(ws[1..]);
      assert ws == [w] + ws[1..];
    }
  }

  /** A word followed by nothing or by a separator is one run. */
  lemma {:induction false} WordLengthOf(w: string, t: string)
    requires IsWord(w)
    requires t == [] || IsSpace(t[0])
    ensures WordLength(w + t) == |w|
  {
    if |w| > 1 {
      assert (w + t)[1..] == w[1..] + t;
      WordLengthOf(w[1..], t);
    } else {
      assert (w + t)[1..] == t;
    }
  }

  /** Joining two non-empty lists puts one space between their joins. */
  lemma {:induction false} JoinAppend(a: seq<string>, b: seq<string>)
    requires a != [] && b != []
    ensures Join(a + b) == Join(a) + " " + Join(b)
  {
    if |a| == 1 {
      assert (a + b)[1..] == b;
    } else {
      assert (a + b)[1..] == a[1..] + b;
      JoinAppend(a[1..], b);
    }
  }

  /** The characters of [a-zA-Z0-9:._-]. */
  predicate IsTokenChar(c: char) {
    ('a' <= c <= 'z') || ('A' <= c <= 'Z') || ('0' <= c <= '9') || c == ':' || c == '.' || c == '-' || c == '_'
  }

  /** s consists of one or more token characters: the whole string matches [a-zA-Z0-9:._-]+. */
  predicate IsToken(s: string) {
    s != [] && forall i :: 0 <= i < |s| ==> IsTokenChar(s[i])
  }

  /** The length of the line that begins s (up to its first newline). */
  function LineLength(s: string): (n: nat)
    ensures n <= |s|
    ensures forall i :: 0 <= i < n ==> s[i] != '\n'
    ensures n < |s| ==> s[n] == '\n'
  {
    if s == [] || s[0] == '\n' then 0 else 1 + LineLength(s[1..])
  }

  /**
   s =~ /^[a-zA-Z0-9:._-]+$/ as Ruby evaluates it: ^ and $ are LINE anchors,
   so the match succeeds as soon as some line of s is a token.
   */
  function LineAnchoredMatch(s: string): bool
    decreases |s|
  {
    var n := LineLength(s);
    IsToken(s[..n]) || (n < |s| && LineAnchoredMatch(s[n + 1..]))
  }

  /** Ruby's ^ at position i: the start of the string or just after a newline. */
  predicate LineStart(s: string, i: int)
    requires 0 <= i <= |s|
  {
    i == 0 || s[i - 1] == '\n'
  }

  /** Ruby's $ at position j: the end of the string or just before a newline. */
  predicate LineEnd(s: string, j: int)
    requires 0 <= j <= |s|
  {
    j == |s| || s[j] == '\n'
  }

  /** The regex's meaning: some span from a ^ position to a $ position is a token. */
  ghost predicate RegexMatches(s: string) {
    exists i, j :: 0 <= i <= j <= |s| && LineStart(s, i) && LineEnd(s, j) && IsToken(s[i..j])
  }

  /** The line-by-line scan computes exactly the regex's meaning. */
  lemma {:induction false} LineAnchoredMatchMeaning(s: string)
    ensures LineAnchoredMatch(s) <==> RegexMatches(s)
    decreases |s|
  {
    var n := LineLength(s);
    if n < |s| {
      LineAnchoredMatchMeaning(s[n + 1..]);
    }
    if LineAnchoredMatch(s) {
      if IsToken(s[..n]) {
        assert s[0..n] == s[..n];
        assert LineStart(s, 0) && LineEnd(s, n);
      } else {
        LaterLineMatches(s, n);
      }
    }
    if RegexMatches(s) {
      var i, j :| 0 <= i <= j <= |s| && LineStart(s, i) && LineEnd(s, j) && IsToken(s[i..j]);
      if i <= n {
        FirstLineSpan(s, i, j);
        assert s[..n] == s[i..j];
      } else {
        LaterSpan(s, n, i, j);
      }
    }
  }

  /** A match in the text after the first newline is a match in the whole text. */
  lemma LaterLineMatches(s: string, n: nat)
    requires n < |s| && s[n] == '\n' && RegexMatches(s[n + 1..])
    ensures RegexMatches(s)
  {
    var t := s[n + 1..];
    var i, j :| 0 <= i <= j <= |t| && LineStart(t, i) && LineEnd(t, j) && IsToken(t[i..j]);
    assert s[n + 1 + i..n + 1 + j] == t[i..j];
    assert LineStart(s, n + 1 + i);
    assert LineEnd(s, n + 1 + j);
  }

  /** A token span that starts on the first line is the whole first line. */
  lemma FirstLineSpan(s: string, i: int, j: int)
    requires 0 <= i <= j <= |s| && LineStart(s, i) && LineEnd(s, j) && IsToken(s[i..j])
    requires i <= LineLength(s)
    ensures i == 0 && j == LineLength(s)
  {
    var n := LineLength(s);
    assert i == 0;
    assert forall k :: i <= k < j ==> s[k] == s[i..j][k - i];
    assert forall k :: i <= k < j ==> s[k] != '\n';
  }

  /** A token span that starts after position n is a span of the text after n. */
  lemma LaterSpan(s: string, n: int, i: int, j: int)
    requires 0 <= i <= j <= |s| && LineStart(s, i) && LineEnd(s, j) && IsToken(s[i..j])
    requires 0 <= n < i
    ensures n < |s| && RegexMatches(s[n + 1..])
  {
    var t := s[n + 1..];
    var a, b := i - n - 1, j - n - 1;
    assert t[a..b] == s[i..j];
    assert a == 0 || t[a - 1] == s[i - 1];
    assert b == |t| || t[b] == s[j];
    RegexWitness(t, a, b);
  }

  /** A token span between a ^ position and a $ position is a match. */
  lemma RegexWitness(t: string, a: int, b: int)
    requires 0 <= a <= b <= |t| && LineStart(t, a) && LineEnd(t, b) && IsToken(t[a..b])
    ensures RegexMatches(t)
  {
  }

  /** On text without newlines the line-anchored regex means the whole string is a token. */
  lemma LineAnchoredMatchSingleLine(s: string)
    requires '\n' !in s
    ensures LineAnchoredMatch(s) == IsToken(s)
  {
    var n := LineLength(s);
    assert n == |s|;
    assert s[..n] == s;
  }
}
