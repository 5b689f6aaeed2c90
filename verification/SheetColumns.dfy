/** Turning the unknown headers of a registration sheet into columns of the `members` table. */
module SheetColumns {
  import opened Common
  import opened HeaderText
  import opened Text

  const MAX_NEW_COLUMNS: nat := 100
  const MAX_IDENTIFIER: nat := 63

  // ---------------------------------------------------------------- normalize_column_name

  predicate IsIdentifier(s: string) {
    && s != "" && ('a' <= s[0] <= 'z' || s[0] == '_')
    && forall i :: 0 <= i < |s| ==> IsLowerWordChar(s[i]) || s[i] == '_'
  }

  function NormalizeColumnName(header: string): string {
    var name := Slug(Trim(header), '_');
    if name == "" then ""
    else
      var prefixed := if '0' <= name[0] <= '9' then "col_" + name else name;
      var short := if |prefixed| > MAX_IDENTIFIER then StripRight(prefixed[..MAX_IDENTIFIER], '_') else prefixed;
      if IsIdentifier(short) then short else ""
  }

  lemma {:induction false} TrimLeftWords(s: string)
    ensures Words(TrimLeft(s)) == Words(s)
  {
    if s != "" && IsSpace(s[0]) {
      TrimLeftWords(s[1..]);
    }
  }

  lemma {:induction false} WordsAppendSymbol(s: string, c: char)
    requires !IsWordChar(c)
    ensures Words(s + [c]) == Words(s)
  {
    if s == "" {
      assert (s + [c])[1..] == "";
    } else {
      assert (s + [c])[1..] == s[1..] + [c];
      WordsAppendSymbol(s[1..], c);
    }
  }

  lemma {:induction false} TrimRightWords(s: string)
    ensures Words(TrimRight(s)) == Words(s)
  {
    if s != "" && IsSpace(s[|s| - 1]) {
      TrimRightWords(s[..|s| - 1]);
      WordsAppendSymbol(s[..|s| - 1], s[|s| - 1]);
      assert s == s[..|s| - 1] + [s[|s| - 1]];
    }
  }

  /** Tidy text that begins with a letter and fits is its own column name. */
  lemma TidyIsFixed(t: string)
    requires Tidy(t, '_') && t != "" && 'a' <= t[0] <= 'z' && |t| <= MAX_IDENTIFIER
    ensures NormalizeColumnName(t) == t
  {
    assert Trim(t) == t by {
      assert TrimLeft(t) == t && TrimRight(t) == t;
    }
    TidyIsSlug(t, '_');
    hide Slug, Trim;
  }

  lemma TidyIsSlug(t: string, sep: char)
    requires Tidy(t, sep) && !IsWordChar(sep)
    ensures Slug(t, sep) == t
  {
    TidySubstitute(t, sep);
    CollapseNothing(t, sep);
  }

  lemma {:induction false} TidySubstitute(t: string, sep: char)
    requires NoDouble(t, sep) && !IsWordChar(sep)
    ensures Substitute(t, sep) == t
  {
    if t != "" {
      assert forall i :: 0 <= i < |t[1..]| ==> t[1..][i] == t[i + 1];
      TidySubstitute(t[1..], sep);
      assert t == [t[0]] + t[1..];
    }
  }

  /** Cutting tidy text and dropping trailing separators leaves tidy text. */
  lemma {:induction false} CutTidy(t: string, n: nat, sep: char)
    requires Tidy(t, sep) && 0 < n <= |t|
    ensures var r := StripRight(t[..n], sep); Tidy(r, sep) && 0 < |r| <= n && r[0] == t[0]
  {
    if t[n - 1] == sep {
      assert t[..n][..n - 1] == t[..n - 1];
      assert n > 1;
      CutTidy(t, n - 1, sep);
    }
  }

  lemma PrefixTidy(t: string)
    requires Tidy(t, '_') && t != ""
    ensures Tidy("col_" + t, '_')
  {
    var p := "col_" + t;
    assert forall i :: 0 <= i < |t| ==> p[4 + i] == t[i];
    assert forall i :: 4 <= i < |p| ==> p[i] == t[i - 4];
  }

  /** The name before it is cut to the identifier limit. */
  function LongName(header: string): string {
    var name := Join(Words(header), '_');
    if name != "" && '0' <= name[0] <= '9' then "col_" + name else name
  }

  lemma LongNameTidy(header: string)
    ensures Tidy(LongName(header), '_')
    ensures LongName(header) == "" <==> Words(header) == []
    ensures LongName(header) != "" ==> 'a' <= LongName(header)[0] <= 'z'
  {
    JoinTidy(Words(header), '_');
    var name := Join(Words(header), '_');
    hide Join, Words;
    if name != "" && '0' <= name[0] <= '9' {
      PrefixTidy(name);
    }
  }

  lemma NameOfWords(header: string)
    ensures NormalizeColumnName(header)
      == if |LongName(header)| > MAX_IDENTIFIER then StripRight(LongName(header)[..MAX_IDENTIFIER], '_')
        else LongName(header)
  {
    TrimLeftWords(header);
    TrimRightWords(TrimLeft(header));
    SlugIsWords(Trim(header), '_');
    LongNameTidy(header);
    var long := LongName(header);
    if |long| > MAX_IDENTIFIER {
      CutTidy(long, MAX_IDENTIFIER, '_');
    }
    hide Join, Words, Slug, Trim, StripRight;
  }

  /**
   * A header with a letter or digit in it gets a valid identifier of at most 63 characters, any
   * other header gets none; and the name is its own name, so a column named as a header stays put.
   */
  lemma ColumnNameSafe(header: string)
    ensures var name := NormalizeColumnName(header);
      && (name == "" <==> Words(header) == [])
      && (name != "" ==> IsIdentifier(name) && |name| <= MAX_IDENTIFIER)
      && NormalizeColumnName(name) == name
  {
    NameOfWords(header);
    LongNameTidy(header);
    var long, name := LongName(header), NormalizeColumnName(header);
    if |long| > MAX_IDENTIFIER {
      CutTidy(long, MAX_IDENTIFIER, '_');
    }
    if name != "" {
      TidyIsFixed(name);
    }
    hide NormalizeColumnName, LongName, Words, StripRight;
  }

  /** Headers that differ only in case and punctuation have one name. */
  lemma SameWordsSameName(h1: string, h2: string)
    requires Words(h1) == Words(h2)
    ensures NormalizeColumnName(h1) == NormalizeColumnName(h2)
  {
    NameOfWords(h1);
    NameOfWords(h2);
    hide NormalizeColumnName, Words;
  }

  predicate StartsWithDigit(words: seq<string>) {
    words != [] && words[0] != "" && '0' <= words[0][0] <= '9'
  }

  /** The words of the long name: those of the header, after "col" when they begin with a digit. */
  lemma LongNameWords(header: string)
    ensures Words(LongName(header)) == if StartsWithDigit(Words(header)) then ["col"] + Words(header) else Words(header)
  {
    var ws := Words(header);
    WordsOfJoin(ws, '_');
    JoinHead(ws);
    if StartsWithDigit(ws) {
      WordsOfJoin(["col"] + ws, '_');
      JoinCons("col", ws, '_');
      assert "col" + ['_'] == "col_";
    }
    hide Words, Join;
  }

  lemma JoinHead(ws: seq<string>)
    requires AllWords(ws)
    ensures Join(ws, '_') == "" <==> ws == []
    ensures ws != [] ==> Join(ws, '_')[0] == ws[0][0]
  {
  }

  /**
   * Two headers whose names need no cutting share a column exactly when their words agree, up to
   * the "col" put before a leading digit: "1 Photo" and "Col 1 Photo" meet.
   */
  lemma SameNameIff(h1: string, h2: string)
    requires |LongName(h1)| <= MAX_IDENTIFIER && |LongName(h2)| <= MAX_IDENTIFIER
    ensures var w1, w2 := Words(h1), Words(h2);
      NormalizeColumnName(h1) == NormalizeColumnName(h2) <==>
        w1 == w2 || (StartsWithDigit(w1) && w2 == ["col"] + w1) || (StartsWithDigit(w2) && w1 == ["col"] + w2)
  {
    NameOfWords(h1);
    NameOfWords(h2);
    LongNameWords(h1);
    LongNameWords(h2);
    LongNameJoin(h1);
    LongNameJoin(h2);
    ColFirst(Words(h1), Words(h2));
    hide NormalizeColumnName, Words, Join, LongName, StartsWithDigit;
  }

  lemma ColFirst(w1: seq<string>, w2: seq<string>)
    ensures ["col"] + w1 == ["col"] + w2 <==> w1 == w2
    ensures !StartsWithDigit(["col"] + w1) && !StartsWithDigit(["col"] + w2)
  {
    assert (["col"] + w1)[1..] == w1 && (["col"] + w2)[1..] == w2;
    assert (["col"] + w1)[0][0] == 'c' && (["col"] + w2)[0][0] == 'c';
  }

  lemma LongNameJoin(header: string)
    ensures LongName(header) == Join(Words(LongName(header)), '_')
  {
    var ws := Words(header);
    LongNameWords(header);
    JoinHead(ws);
    JoinCons("col", ws, '_');
    assert "col" + ['_'] == "col_";
    hide Words, Join;
  }
}
