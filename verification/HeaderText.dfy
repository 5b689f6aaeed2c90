/**
 * Sheet header text reduced to lower-case words.  Column names and matching keys are both built by
 * replacing runs of symbols, collapsing separators and stripping them; `Words` is what that means.
 */
module HeaderText {
  predicate IsLetter(c: char) { 'a' <= c <= 'z' || 'A' <= c <= 'Z' }

  predicate IsWordChar(c: char) { IsLetter(c) || '0' <= c <= '9' }

  predicate IsLowerWordChar(c: char) { 'a' <= c <= 'z' || '0' <= c <= '9' }

  function Lower(c: char): (r: char)
    ensures IsWordChar(c) <==> IsLowerWordChar(r)
    ensures !IsWordChar(c) ==> r == c
    ensures IsLowerWordChar(c) ==> r == c
  {
    if 'A' <= c <= 'Z' then (c as int + 32) as char else c
  }

  // ---------------------------------------------------------------- the regular-expression pipeline

  /** Lower-case `s` and replace every maximal run of other characters by one separator. */
  function Substitute(s: string, sep: char): string {
    if s == "" then ""
    else if IsWordChar(s[0]) then [Lower(s[0])] + Substitute(s[1..], sep)
    else if |s| > 1 && !IsWordChar(s[1]) then Substitute(s[1..], sep)
    else [sep] + Substitute(s[1..], sep)
  }

  /** Replace every run of separators by one. */
  function Collapse(s: string, sep: char): string {
    if |s| < 2 then s
    else if s[0] == sep && s[1] == sep then Collapse(s[1..], sep)
    else [s[0]] + Collapse(s[1..], sep)
  }

  function StripLeft(s: string, sep: char): string {
    if s != "" && s[0] == sep then StripLeft(s[1..], sep) else s
  }

  function StripRight(s: string, sep: char): string {
    if s != "" && s[|s| - 1] == sep then StripRight(s[..|s| - 1], sep) else s
  }

  function Slug(s: string, sep: char): string {
    StripRight(StripLeft(Collapse(Substitute(s, sep), sep), sep), sep)
  }

  // ---------------------------------------------------------------- what it means

  /** The maximal runs of letters and digits in `s`, in lower case. */
  function Words(s: string): (ws: seq<string>)
    ensures s != "" && IsWordChar(s[0]) ==> ws != []
    ensures AllWords(ws)
  {
    if s == "" then []
    else
      var rest := Words(s[1..]);
      if !IsWordChar(s[0]) then rest
      else if |s| > 1 && IsWordChar(s[1]) then [[Lower(s[0])] + rest[0]] + rest[1..]
      else [[Lower(s[0])]] + rest
  }

  predicate IsWord(w: string) {
    w != "" && forall i :: 0 <= i < |w| ==> IsLowerWordChar(w[i])
  }

  predicate AllWords(ws: seq<string>) {
    forall i :: 0 <= i < |ws| ==> IsWord(ws[i])
  }

  function Join(ws: seq<string>, sep: char): string {
    if ws == [] then ""
    else if |ws| == 1 then ws[0]
    else ws[0] + [sep] + Join(ws[1..], sep)
  }

  /** Lower-case words with single separators between them, none at either end. */
  predicate Tidy(t: string, sep: char) {
    && (t != "" ==> t[0] != sep && t[|t| - 1] != sep)
    && NoDouble(t, sep)
  }

  /** Lower-case words and separators, no two separators in a row. */
  predicate NoDouble(t: string, sep: char) {
    && (forall i :: 0 <= i < |t| ==> IsLowerWordChar(t[i]) || t[i] == sep)
    && (forall i :: 0 < i < |t| ==> t[i - 1] != sep || t[i] != sep)
  }

  lemma {:induction false} JoinTidy(ws: seq<string>, sep: char)
    requires AllWords(ws) && !IsWordChar(sep)
    ensures Tidy(Join(ws, sep), sep) && (Join(ws, sep) == "" <==> ws == [])
  {
    if |ws| > 1 {
      JoinTidy(ws[1..], sep);
      var w, t := ws[0], Join(ws[1..], sep);
      var j := w + [sep] + t;
      assert Join(ws, sep) == j;
      assert forall i :: 0 <= i < |w| ==> j[i] == w[i];
      assert forall i :: 0 <= i < |t| ==> j[|w| + 1 + i] == t[i];
      assert forall i :: |w| < i < |j| ==> j[i] == t[i - |w| - 1];
    }
  }

  /** The separator left by a leading, or trailing, run of symbols. */
  function Lead(s: string, sep: char): string {
    if s != "" && !IsWordChar(s[0]) then [sep] else ""
  }

  function Trail(s: string, sep: char): string {
    if Words(s) != [] && !IsWordChar(s[|s| - 1]) then [sep] else ""
  }

  lemma JoinPrepend(c: string, ws: seq<string>, sep: char)
    requires ws != []
    ensures Join([c + ws[0]] + ws[1..], sep) == c + Join(ws, sep)
  {
  }

  lemma JoinCons(w: string, ws: seq<string>, sep: char)
    ensures Join([w] + ws, sep) == if ws == [] then w else w + [sep] + Join(ws, sep)
  {
  }

  lemma {:induction false} NoWords(s: string)
    ensures Words(s) == [] <==> forall i :: 0 <= i < |s| ==> !IsWordChar(s[i])
  {
    if s != "" {
      NoWords(s[1..]);
      assert forall i :: 0 < i < |s| ==> s[i] == s[1..][i - 1];
    }
  }

  lemma SubstituteStep(s: string, sep: char)
    requires s != ""
    ensures var t, word := s[1..], IsWordChar(s[0]);
      && (word ==> Substitute(s, sep) == [Lower(s[0])] + Substitute(t, sep))
      && (!word && t != "" && !IsWordChar(t[0]) ==> Substitute(s, sep) == Substitute(t, sep))
      && (!word && (t == "" || IsWordChar(t[0])) ==> Substitute(s, sep) == [sep] + Substitute(t, sep))
  {
  }

  lemma WordsStep(s: string)
    requires s != ""
    ensures var t, word := s[1..], IsWordChar(s[0]);
      && (!word ==> Words(s) == Words(t))
      && (word && t != "" && IsWordChar(t[0]) ==>
           Words(t) != [] && Words(s) == [[Lower(s[0])] + Words(t)[0]] + Words(t)[1..])
      && (word && (t == "" || !IsWordChar(t[0])) ==> Words(s) == [[Lower(s[0])]] + Words(t))
  {
  }

  lemma TrailStep(s: string, sep: char)
    requires s != ""
    ensures s[1..] == "" ==> Trail(s, sep) == ""
    ensures s[1..] != "" && Words(s[1..]) != [] ==> Trail(s, sep) == Trail(s[1..], sep)
    ensures s[1..] != "" && Words(s[1..]) == [] ==> Trail(s, sep) == if IsWordChar(s[0]) then [sep] else ""
  {
    WordsStep(s);
    NoWords(s[1..]);
    var t := s[1..];
    assert t != "" ==> s[|s| - 1] == t[|t| - 1];
    hide Words;
  }

  /** A word character goes in front of the first word, or makes one. */
  lemma SubstituteWord(s: string, sep: char)
    requires s != "" && IsWordChar(s[0])
    requires Substitute(s[1..], sep) == Lead(s[1..], sep) + Join(Words(s[1..]), sep) + Trail(s[1..], sep)
    ensures Substitute(s, sep) == Join(Words(s), sep) + Trail(s, sep)
  {
    var c, t := [Lower(s[0])], s[1..];
    var ws, trail := Words(t), Trail(t, sep);
    WordsStep(s);
    SubstituteStep(s, sep);
    TrailStep(s, sep);
    JoinCons(c, ws, sep);
    JoinNone(sep);
    NoWordsTrail(t, sep);
    if ws != [] {
      JoinPrepend(c, ws, sep);
    }
    hide Substitute, Words, Join, Trail, Lower, IsWordChar;
    var j := Join(ws, sep);
    if t == "" {
      assert Join(Words(s), sep) == c;
    } else if IsWordChar(t[0]) {
      assert Lead(t, sep) == "";
      Regroup(c, "", j, trail);
    } else {
      assert Lead(t, sep) == [sep];
      Regroup(c, [sep], j, trail);
    }
  }

  lemma NoWordsTrail(t: string, sep: char)
    ensures Words(t) == [] ==> Trail(t, sep) == ""
    ensures t == "" ==> Words(t) == []
  {
  }

  lemma Regroup(c: string, lead: string, j: string, trail: string)
    ensures c + (lead + j + trail) == (c + lead + j) + trail
    ensures lead == "" ==> c + (lead + j + trail) == (c + j) + trail
    ensures j == "" && trail == "" ==> c + (lead + j + trail) == c + lead
  {
    assert lead == "" ==> lead + j == j;
  }

  lemma JoinNone(sep: char)
    ensures Join([], sep) == ""
  {
  }

  /** A symbol is dropped, or leaves one separator in front. */
  lemma SubstituteSymbol(s: string, sep: char)
    requires s != "" && !IsWordChar(s[0])
    requires Substitute(s[1..], sep) == Lead(s[1..], sep) + Join(Words(s[1..]), sep) + Trail(s[1..], sep)
    ensures Substitute(s, sep) == [sep] + Join(Words(s), sep) + Trail(s, sep)
  {
    var t := s[1..];
    var j, trail := Join(Words(t), sep), Trail(t, sep);
    WordsStep(s);
    SubstituteStep(s, sep);
    TrailStep(s, sep);
    NoWordsTrail(t, sep);
    hide Substitute, Words, Join, Trail, IsWordChar;
    assert Join(Words(s), sep) == j && Trail(s, sep) == trail;
    if t == "" || IsWordChar(t[0]) {
      assert Lead(t, sep) == "";
      Regroup([sep], "", j, trail);
    }
  }

  lemma {:induction false} SubstituteWords(s: string, sep: char)
    ensures Substitute(s, sep) == Lead(s, sep) + Join(Words(s), sep) + Trail(s, sep)
  {
    if s == "" {
      JoinNone(sep);
    } else {
      SubstituteWords(s[1..], sep);
      if IsWordChar(s[0]) {
        SubstituteWord(s, sep);
        assert Lead(s, sep) == "";
        hide *;
        assert "" + Join(Words(s), sep) == Join(Words(s), sep);
      } else {
        SubstituteSymbol(s, sep);
        assert Lead(s, sep) == [sep];
        hide *;
      }
    }
  }

  lemma {:induction false} CollapseNothing(t: string, sep: char)
    requires NoDouble(t, sep)
    ensures Collapse(t, sep) == t
  {
    if |t| >= 2 {
      assert t[1..][0] == t[1];
      CollapseNothing(t[1..], sep);
    }
  }

  /** Both normalisers compute the words of the header, joined by their separator. */
  lemma SlugIsWords(s: string, sep: char)
    requires !IsWordChar(sep)
    ensures Slug(s, sep) == Join(Words(s), sep)
  {
    var j, lead, trail := Join(Words(s), sep), Lead(s, sep), Trail(s, sep);
    JoinTidy(Words(s), sep);
    SubstituteWords(s, sep);
    var t := lead + j + trail;
    hide Words, Join, Substitute, Lead, Trail;
    assert NoDouble(t, sep);
    CollapseNothing(t, sep);
    StripEnds(lead, j, trail, sep);
  }

  lemma StripEnds(lead: string, j: string, trail: string, sep: char)
    requires (lead == "" || lead == [sep]) && (trail == "" || trail == [sep]) && (j == "" ==> trail == "")
    requires j != "" ==> j[0] != sep && j[|j| - 1] != sep
    ensures StripRight(StripLeft(lead + j + trail, sep), sep) == j
  {
    var u := j + trail;
    assert lead + j + trail == lead + u;
    hide *;
    StripFront(lead, u, sep);
    StripBack(j, trail, sep);
  }

  lemma StripFront(lead: string, u: string, sep: char)
    requires (lead == "" || lead == [sep]) && (u != "" ==> u[0] != sep)
    ensures StripLeft(lead + u, sep) == u
  {
    assert lead == [sep] ==> (lead + u)[1..] == u;
    assert lead == "" ==> lead + u == u;
  }

  lemma StripBack(j: string, trail: string, sep: char)
    requires (trail == "" || trail == [sep]) && (j != "" ==> j[|j| - 1] != sep)
    ensures StripRight(j + trail, sep) == j
  {
    assert StripRight(j, sep) == j;
    if trail == [sep] {
      var t := j + trail;
      assert t[|t| - 1] == sep && t[..|t| - 1] == j;
      assert StripRight(t, sep) == StripRight(t[..|t| - 1], sep);
    } else {
      assert j + trail == j;
    }
  }

  // ---------------------------------------------------------------- whole-word prefixes

  /** The header equals the alias or continues it after a space. */
  predicate StartsWithWords(text: string, alias: string) {
    text == alias || alias + " " <= text
  }

  /** A word followed by a separator is recognised as such: the first word of a joined text is unique. */
  lemma FirstWord(v: string, x: string, w: string, y: string)
    requires IsWord(v) && IsWord(w)
    requires x == "" || x[0] == ' '
    requires y == "" || y[0] == ' '
    requires v + x <= w + y && x != ""
    ensures v == w && x <= y
  {
    var p, q := v + x, w + y;
    assert forall k :: 0 <= k < |v| ==> p[k] == v[k];
    assert forall k :: 0 <= k < |w| ==> q[k] == w[k];
    assert p[|v|] == ' ' && (y != "" ==> q[|w|] == ' ');
    assert forall k :: 0 <= k < |p| ==> p[k] == q[k];
    assert |v| == |w|;
    assert v == p[..|v|] == q[..|v|] == w;
    SameHead(v, x, y);
  }

  lemma SameHead(v: string, x: string, y: string)
    requires v + x <= v + y
    ensures x <= y
  {
    assert x == (v + x)[|v|..] && y == (v + y)[|v|..];
  }

  /** What follows the first word of a joined text. */
  function After(ws: seq<string>): (r: string)
    requires ws != []
    ensures r == "" || r[0] == ' '
    ensures Join(ws, ' ') == ws[0] + r
    ensures r == "" <==> |ws| == 1
  {
    if |ws| == 1 then "" else [' '] + Join(ws[1..], ' ')
  }

  /** On joined texts, starting with the words of an alias is being an extension of its word list. */
  lemma {:induction false} WholeWordPrefix(aliasWords: seq<string>, words: seq<string>)
    requires AllWords(aliasWords) && AllWords(words) && aliasWords != []
    ensures StartsWithWords(Join(words, ' '), Join(aliasWords, ' ')) <==> aliasWords <= words
    decreases |aliasWords|
  {
    var a, h := Join(aliasWords, ' '), Join(words, ' ');
    JoinTidy(aliasWords, ' ');
    JoinTidy(words, ' ');
    if words != [] {
      var x, y := After(aliasWords) + " ", After(words) + " ";
      assert a + " " == aliasWords[0] + x && h + " " == words[0] + y;
      assert StartsWithWords(h, a) <==> a + " " <= h + " " by {
        ExtendBoth(h, a);
      }
      if |aliasWords| == 1 {
        OneWordPrefix(aliasWords[0], words);
      } else if a + " " <= h + " " {
        FirstWord(aliasWords[0], x, words[0], y);
        RestPrefix(aliasWords, words, x, y);
      } else if aliasWords <= words {
        RestExtends(aliasWords, words, x, y);
      }
    }
  }

  lemma ExtendBoth(h: string, a: string)
    requires h == "" || h[|h| - 1] != ' '
    ensures StartsWithWords(h, a) <==> a + " " <= h + " "
  {
    if a + " " <= h + " " && |a| < |h| {
      assert forall i :: 0 <= i <= |a| ==> (a + " ")[i] == (h + " ")[i] == h[i];
    }
    if a + " " <= h + " " && |a| == |h| {
      assert a == (a + " ")[..|a|] == (h + " ")[..|a|] == h;
    }
    if a + " " <= h {
      assert forall i :: 0 <= i <= |a| ==> (a + " ")[i] == h[i];
    }
  }

  lemma OneWordPrefix(w: string, words: seq<string>)
    requires IsWord(w) && AllWords(words) && words != []
    ensures w + " " <= Join(words, ' ') + " " <==> [w] <= words
  {
    var y := After(words) + " ";
    assert Join(words, ' ') + " " == words[0] + y;
    if w + " " <= words[0] + y {
      FirstWord(w, " ", words[0], y);
    }
    if w == words[0] {
      assert y[0] == ' ';
    }
  }

  lemma AfterTail(ws: seq<string>)
    requires ws != []
    ensures |ws| == 1 ==> After(ws) + " " == " "
    ensures |ws| > 1 ==> After(ws) + " " == " " + (Join(ws[1..], ' ') + " ")
  {
  }

  lemma RestPrefix(aliasWords: seq<string>, words: seq<string>, x: string, y: string)
    requires |aliasWords| > 1 && words != [] && AllWords(aliasWords) && AllWords(words)
    requires x == After(aliasWords) + " " && y == After(words) + " "
    requires aliasWords[0] == words[0] && x <= y
    ensures aliasWords <= words
    decreases |aliasWords|, 0
  {
    var as', hs := aliasWords[1..], words[1..];
    JoinTidy(hs, ' ');
    AfterTail(aliasWords);
    AfterTail(words);
    TailWords(aliasWords);
    TailWords(words);
    hide Join, After, AllWords, IsWord;
    assert hs != [];
    SameHead(" ", Join(as', ' ') + " ", Join(hs, ' ') + " ");
    ExtendBoth(Join(hs, ' '), Join(as', ' '));
    WholeWordPrefix(as', hs);
    assert aliasWords == [aliasWords[0]] + as' && words == [words[0]] + hs;
  }

  lemma TailWords(ws: seq<string>)
    requires AllWords(ws) && ws != []
    ensures AllWords(ws[1..])
  {
  }

  lemma RestExtends(aliasWords: seq<string>, words: seq<string>, x: string, y: string)
    requires |aliasWords| > 1 && words != [] && AllWords(aliasWords) && AllWords(words)
    requires x == After(aliasWords) + " " && y == After(words) + " "
    requires aliasWords <= words
    ensures aliasWords[0] + x <= words[0] + y
    decreases |aliasWords|, 0
  {
    var as', hs := aliasWords[1..], words[1..];
    JoinTidy(hs, ' ');
    assert as' <= hs;
    WholeWordPrefix(as', hs);
    ExtendBoth(Join(hs, ' '), Join(as', ' '));
    assert x == " " + (Join(as', ' ') + " ") && y == " " + (Join(hs, ' ') + " ");
  }

  // ---------------------------------------------------------------- joining loses nothing

  lemma {:induction false} WordThenSymbol(w: string, rest: string)
    requires IsWord(w) && (rest == "" || !IsWordChar(rest[0]))
    ensures Words(w + rest) == [w] + Words(rest)
  {
    var s := w + rest;
    WordsStep(s);
    if |w| == 1 {
      assert s[1..] == rest && [w[0]] == w;
    } else {
      assert s[1..] == w[1..] + rest;
      WordThenSymbol(w[1..], rest);
      assert [w[0]] + w[1..] == w;
    }
    hide Words;
  }

  lemma {:induction false} WordsOfJoin(ws: seq<string>, sep: char)
    requires AllWords(ws) && !IsWordChar(sep)
    ensures Words(Join(ws, sep)) == ws
  {
    if |ws| == 1 {
      WordThenSymbol(ws[0], "");
      assert ws[0] + "" == ws[0] && ws == [ws[0]];
    } else if |ws| > 1 {
      var t := [sep] + Join(ws[1..], sep);
      assert Join(ws, sep) == ws[0] + t;
      WordsOfJoin(ws[1..], sep);
      WordsStep(t);
      WordThenSymbol(ws[0], t);
      assert ws == [ws[0]] + ws[1..];
    }
  }
}
