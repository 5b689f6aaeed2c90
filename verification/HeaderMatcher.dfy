/** Matching a sheet header to a registration field by the longest alias it starts with. */
module HeaderMatcher {
  import opened Common
  import opened HeaderText

  datatype Field = Field(key: string, aliases: seq<string>)

  function NormalizeHeader(h: string): string { Slug(h, ' ') }

  /** Normalised aliases of the alias table's entry `raw`: no blanks, no repeats, longest first. */
  ghost predicate Represents(field: Field, raw: Field) {
    && field.key == raw.key
    && Distinct(field.aliases) && LongestFirst(field.aliases)
    && (forall n :: n in field.aliases ==> n != "" && exists a :: a in raw.aliases && NormalizeHeader(a) == n)
    && (forall a :: a in raw.aliases && NormalizeHeader(a) != "" ==> NormalizeHeader(a) in field.aliases)
  }

  ghost predicate LongestFirst(s: seq<string>) {
    forall i, j :: 0 <= i < j < |s| ==> |s[i]| >= |s[j]|
  }

  ghost predicate IndexOf(index: seq<Field>, table: seq<Field>) {
    && |index| == |table|
    && forall f :: 0 <= f < |table| ==> Represents(index[f], table[f])
  }

  // ---------------------------------------------------------------- build_column_index

  /** Insertion keeping longest first; equal lengths keep their order. */
  function Place(x: string, s: seq<string>): (r: seq<string>)
    ensures forall y :: y in r <==> y == x || y in s
  {
    if s == [] || |x| > |s[0]| then [x] + s else [s[0]] + Place(x, s[1..])
  }

  /** `sorted(s, key=len, reverse=True)`. */
  function ByLength(s: seq<string>): (r: seq<string>)
    ensures forall y :: y in r <==> y in s
  {
    if s == [] then []
    else
      assert s == s[..|s| - 1] + [s[|s| - 1]];
      Place(s[|s| - 1], ByLength(s[..|s| - 1]))
  }

  lemma LongestFirstCons(x: string, s: seq<string>)
    requires LongestFirst(s) && forall y :: y in s ==> |y| <= |x|
    ensures LongestFirst([x] + s)
  {
  }

  lemma {:induction false} PlaceSorts(x: string, s: seq<string>)
    requires LongestFirst(s)
    ensures LongestFirst(Place(x, s))
  {
    if s == [] || |x| > |s[0]| {
      LongestFirstCons(x, s);
    } else {
      PlaceSorts(x, s[1..]);
      LongestFirstCons(s[0], Place(x, s[1..]));
    }
  }

  lemma {:induction false} PlaceDistinct(x: string, s: seq<string>)
    requires Distinct(s) && x !in s
    ensures Distinct(Place(x, s))
  {
    if s == [] || |x| > |s[0]| {
      DistinctCons(x, s);
    } else {
      assert s[0] !in s[1..];
      PlaceDistinct(x, s[1..]);
      DistinctCons(s[0], Place(x, s[1..]));
    }
  }

  lemma {:induction false} ByLengthSorts(s: seq<string>)
    ensures LongestFirst(ByLength(s))
    ensures Distinct(s) ==> Distinct(ByLength(s))
  {
    if s != [] {
      var front, last := s[..|s| - 1], s[|s| - 1];
      ByLengthSorts(front);
      PlaceSorts(last, ByLength(front));
      if Distinct(s) {
        PlaceDistinct(last, ByLength(front));
      }
    }
  }

  ghost predicate Collected(seen: seq<string>, aliases: seq<string>) {
    && Distinct(seen)
    && (forall n :: n in seen ==> n != "" && exists a :: a in aliases && NormalizeHeader(a) == n)
    && (forall a :: a in aliases && NormalizeHeader(a) != "" ==> NormalizeHeader(a) in seen)
  }

  lemma CollectedStep(seen: seq<string>, aliases: seq<string>, a: string)
    requires Collected(seen, aliases)
    ensures var n := NormalizeHeader(a);
      Collected(if n != "" && n !in seen then seen + [n] else seen, aliases + [a])
  {
    hide NormalizeHeader;
  }

  method NormalizedAliases(aliases: seq<string>) returns (seen: seq<string>)
    ensures Collected(seen, aliases)
  {
    hide NormalizeHeader, Collected;
    seen := [];
    NothingCollected();
    for k := 0 to |aliases|
      invariant Collected(seen, aliases[..k])
    {
      var normalized := NormalizeHeader(aliases[k]);
      CollectedStep(seen, aliases[..k], aliases[k]);
      assert aliases[..k] + [aliases[k]] == aliases[..k + 1];
      if normalized != "" && normalized !in seen {
        seen := seen + [normalized];
      }
    }
    assert aliases[..|aliases|] == aliases;
  }

  lemma NothingCollected()
    ensures Collected([], [])
  {
  }

  method BuildColumnIndex(table: seq<Field>) returns (index: seq<Field>)
    ensures IndexOf(index, table)
  {
    hide Represents;
    index := [];
    for f := 0 to |table|
      invariant IndexOf(index, table[..f])
    {
      var seen := NormalizedAliases(table[f].aliases);
      SortedRepresents(table[f], seen);
      index := index + [Field(table[f].key, ByLength(seen))];
    }
    assert table[..|table|] == table;
  }

  lemma SortedRepresents(raw: Field, seen: seq<string>)
    requires Collected(seen, raw.aliases)
    ensures Represents(Field(raw.key, ByLength(seen)), raw)
  {
    ByLengthSorts(seen);
  }

  // ---------------------------------------------------------------- match_field

  ghost predicate Usable(index: seq<Field>) {
    forall f :: 0 <= f < |index| ==> LongestFirst(index[f].aliases) && "" !in index[f].aliases
  }

  lemma IndexIsUsable(index: seq<Field>, table: seq<Field>)
    requires IndexOf(index, table)
    ensures Usable(index)
  {
    forall f | 0 <= f < |index|
      ensures LongestFirst(index[f].aliases) && "" !in index[f].aliases
    {
      assert Represents(index[f], table[f]);
    }
  }

  /** Field `f` owns an alias of length `n` that `text` starts with. */
  ghost predicate Owns(index: seq<Field>, text: string, f: int, n: int) {
    0 <= f < |index| && exists a :: a in index[f].aliases && StartsWithWords(text, a) && |a| == n
  }

  /** `best` is the first field, in order, owning the longest alias the text starts with. */
  ghost predicate Matched(index: seq<Field>, text: string, best: Option<string>) {
    match best
    case None => forall f, n :: !Owns(index, text, f, n)
    case Some(key) => exists f, n :: FirstLongest(index, text, f, n) && index[f].key == key
  }

  ghost predicate FirstLongest(index: seq<Field>, text: string, f: int, n: int) {
    && Owns(index, text, f, n)
    && (forall g, m :: Owns(index, text, g, m) ==> m <= n)
    && (forall g :: g < f ==> !Owns(index, text, g, n))
  }

  /** The best match among the first `i` fields: the longest alias, and its first owner. */
  ghost predicate BestOf(index: seq<Field>, text: string, i: int, best: Option<(int, string)>) {
    match best
    case None => forall f, n :: f < i ==> !Owns(index, text, f, n)
    case Some((n, key)) =>
      && (forall g, m :: g < i && Owns(index, text, g, m) ==> m <= n)
      && exists f :: 0 <= f < i <= |index| && Owns(index, text, f, n) && index[f].key == key
           && forall g :: g < f ==> !Owns(index, text, g, n)
  }

  /** The longest alias of one field that the text starts with. */
  method LongestIn(index: seq<Field>, text: string, f: int) returns (found: Option<int>)
    requires Usable(index) && 0 <= f < |index|
    ensures found.None? ==> forall n :: !Owns(index, text, f, n)
    ensures found.Some? ==>
      Owns(index, text, f, found.value) && forall n :: Owns(index, text, f, n) ==> n <= found.value
  {
    hide StartsWithWords;
    found := None;
    var aliases := index[f].aliases;
    for k := 0 to |aliases|
      invariant found.None? && forall i :: 0 <= i < k ==> !StartsWithWords(text, aliases[i])
    {
      if StartsWithWords(text, aliases[k]) {
        found := Some(|aliases[k]|);
        break;
      }
    }
  }

  lemma BestStep(index: seq<Field>, text: string, i: int, best: Option<(int, string)>, found: Option<int>)
    requires 0 <= i < |index| && BestOf(index, text, i, best)
    requires found.None? ==> forall n :: !Owns(index, text, i, n)
    requires found.Some? ==>
      Owns(index, text, i, found.value) && forall n :: Owns(index, text, i, n) ==> n <= found.value
    ensures BestOf(index, text, i + 1,
      if found.Some? && (best.None? || found.value > best.value.0) then Some((found.value, index[i].key)) else best)
  {
    hide Owns;
  }

  method MatchField(index: seq<Field>, header: string) returns (field: Option<string>)
    requires Usable(index)
    ensures Matched(index, NormalizeHeader(header), field)
  {
    hide NormalizeHeader, Owns;
    var text := NormalizeHeader(header);
    if text == "" {
      NothingMatchesBlank(index);
      return None;
    }
    var best: Option<(int, string)> := None;
    assert BestOf(index, text, 0, best) by { OwnsInRange(index, text); }
    for i := 0 to |index|
      invariant BestOf(index, text, i, best)
    {
      var found := LongestIn(index, text, i);
      BestStep(index, text, i, best, found);
      if found.Some? && (best.None? || found.value > best.value.0) {
        best := Some((found.value, index[i].key));
      }
    }
    BestIsMatched(index, text, best);
    field := if best.Some? then Some(best.value.1) else None;
  }

  lemma NothingMatchesBlank(index: seq<Field>)
    requires Usable(index)
    ensures Matched(index, "", None)
  {
  }

  lemma OwnsInRange(index: seq<Field>, text: string)
    ensures forall f, n :: Owns(index, text, f, n) ==> 0 <= f < |index|
  {
  }

  lemma BestIsMatched(index: seq<Field>, text: string, best: Option<(int, string)>)
    requires BestOf(index, text, |index|, best)
    ensures Matched(index, text, if best.Some? then Some(best.value.1) else None)
  {
    OwnsInRange(index, text);
    hide Owns;
    if best.Some? {
      var (n, key) := best.value;
      var f :| 0 <= f < |index| && Owns(index, text, f, n) && index[f].key == key
        && forall g :: g < f ==> !Owns(index, text, g, n);
      assert FirstLongest(index, text, f, n);
    }
  }

  // ---------------------------------------------------------------- in terms of words

  /** The header's words begin with those of alias `a` of field `f`. */
  ghost predicate Claims(table: seq<Field>, header: string, f: int, a: string) {
    0 <= f < |table| && a in table[f].aliases && Words(a) != [] && Words(a) <= Words(header)
  }

  lemma NormalizedWords(h: string)
    ensures NormalizeHeader(h) == Join(Words(h), ' ')
    ensures NormalizeHeader(h) == "" <==> Words(h) == []
  {
    SlugIsWords(h, ' ');
    JoinTidy(Words(h), ' ');
  }

  lemma OwnsIffClaims(index: seq<Field>, table: seq<Field>, header: string, f: int, n: int)
    requires IndexOf(index, table) && 0 <= f < |table|
    ensures Owns(index, NormalizeHeader(header), f, n)
      <==> exists a :: Claims(table, header, f, a) && |NormalizeHeader(a)| == n
  {
    var text := NormalizeHeader(header);
    assert Represents(index[f], table[f]);
    NormalizedWords(header);
    hide NormalizeHeader, Words, Join, Slug, StartsWithWords;
    forall a | a in table[f].aliases && NormalizeHeader(a) != ""
      ensures Claims(table, header, f, a) <==> StartsWithWords(text, NormalizeHeader(a))
    {
      NormalizedWords(a);
      WholeWordPrefix(Words(a), Words(header));
    }
    forall a | Claims(table, header, f, a)
      ensures NormalizeHeader(a) != ""
    {
      NormalizedWords(a);
    }
  }

  /** Of two word lists, a proper extension is the longer text. */
  lemma LongerIsExtension(v: seq<string>, w: seq<string>)
    requires AllWords(v) && AllWords(w) && v != [] && w != []
    requires v <= w || w <= v
    ensures |Join(v, ' ')| <= |Join(w, ' ')| <==> v <= w
  {
    WholeWordPrefix(v, w);
    WholeWordPrefix(w, v);
  }

  lemma ClaimsComparable(table: seq<Field>, header: string, f: int, a: string, g: int, b: string)
    requires Claims(table, header, f, a) && Claims(table, header, g, b)
    ensures |NormalizeHeader(a)| <= |NormalizeHeader(b)| <==> Words(a) <= Words(b)
  {
    NormalizedWords(a);
    NormalizedWords(b);
    LongerIsExtension(Words(a), Words(b));
  }

  /** The alias `a` of field `f` begins the header, and every alias that does so begins `a`. */
  ghost predicate LongestClaim(table: seq<Field>, header: string, f: int, a: string) {
    && Claims(table, header, f, a)
    && forall g, b :: Claims(table, header, g, b) ==> Words(b) <= Words(a)
  }

  /**
   * A header is matched to a field owning the longest alias whose words begin the header's, and
   * to none exactly when no alias of any field does.
   */
  lemma LongestAliasWins(table: seq<Field>, index: seq<Field>, header: string, field: Option<string>)
    requires IndexOf(index, table) && Matched(index, NormalizeHeader(header), field)
    ensures field.None? <==> forall f, a :: !Claims(table, header, f, a)
    ensures field.Some? ==> exists f, a :: LongestClaim(table, header, f, a) && table[f].key == field.value
  {
    var text := NormalizeHeader(header);
    forall f, n | 0 <= f < |table|
      ensures Owns(index, text, f, n) <==> exists a :: Claims(table, header, f, a) && |NormalizeHeader(a)| == n
    {
      OwnsIffClaims(index, table, header, f, n);
    }
    OwnsInRange(index, text);
    if field.Some? {
      var f, n :| FirstLongest(index, text, f, n) && index[f].key == field.value;
      WinnerClaims(table, index, header, f, n);
      var a :| LongestClaim(table, header, f, a);
      assert Represents(index[f], table[f]);
    } else {
      NoOwnerNoClaim(table, index, header);
    }
  }

  lemma NoOwnerNoClaim(table: seq<Field>, index: seq<Field>, header: string)
    requires IndexOf(index, table) && forall f, n :: !Owns(index, NormalizeHeader(header), f, n)
    ensures forall f, a :: !Claims(table, header, f, a)
  {
    hide NormalizeHeader, Owns;
    forall f, a
      ensures !Claims(table, header, f, a)
    {
      if Claims(table, header, f, a) {
        OwnsIffClaims(index, table, header, f, |NormalizeHeader(a)|);
        assert false;
      }
    }
  }

  lemma WinnerClaims(table: seq<Field>, index: seq<Field>, header: string, f: int, n: int)
    requires IndexOf(index, table) && FirstLongest(index, NormalizeHeader(header), f, n)
    ensures exists a :: LongestClaim(table, header, f, a)
  {
    OwnsInRange(index, NormalizeHeader(header));
    hide NormalizeHeader, Owns, Represents, Words;
    OwnsIffClaims(index, table, header, f, n);
    var a :| Claims(table, header, f, a) && |NormalizeHeader(a)| == n;
    forall g, b | Claims(table, header, g, b)
      ensures Words(b) <= Words(a)
    {
      OwnsIffClaims(index, table, header, g, |NormalizeHeader(b)|);
      ClaimsComparable(table, header, g, b, f, a);
    }
    assert LongestClaim(table, header, f, a);
  }

  /** No two fields have aliases with the same words. */
  ghost predicate Unambiguous(table: seq<Field>) {
    forall f, g, a, b :: (0 <= f < |table| && 0 <= g < |table| && a in table[f].aliases && b in table[g].aliases
                          && Words(a) != [] && Words(a) == Words(b))
      ==> table[f].key == table[g].key
  }

  /** When no alias belongs to two fields, reordering the fields never changes a match. */
  lemma OrderIndependent(t1: seq<Field>, t2: seq<Field>, i1: seq<Field>, i2: seq<Field>, header: string,
      f1: Option<string>, f2: Option<string>)
    requires Unambiguous(t1) && forall x :: x in t1 <==> x in t2
    requires IndexOf(i1, t1) && IndexOf(i2, t2)
    requires Matched(i1, NormalizeHeader(header), f1) && Matched(i2, NormalizeHeader(header), f2)
    ensures f1 == f2
  {
    hide NormalizeHeader, IndexOf, Matched, Words, Unambiguous;
    LongestAliasWins(t1, i1, header, f1);
    LongestAliasWins(t2, i2, header, f2);
    if f1.Some? {
      var f, a :| LongestClaim(t1, header, f, a) && t1[f].key == f1.value;
      var k := SameClaim(t1, t2, header, f, a);
      if f2.Some? {
        var g, b :| LongestClaim(t2, header, g, b) && t2[g].key == f2.value;
        var h := SameClaim(t2, t1, header, g, b);
        SameOwner(t1, header, f, a, h, b);
      }
    } else if f2.Some? {
      var g, b :| LongestClaim(t2, header, g, b) && t2[g].key == f2.value;
      var h := SameClaim(t2, t1, header, g, b);
    }
  }

  lemma SameOwner(table: seq<Field>, header: string, f: int, a: string, g: int, b: string)
    requires Unambiguous(table) && Claims(table, header, f, a) && Claims(table, header, g, b)
    requires Words(a) <= Words(b) && Words(b) <= Words(a)
    ensures table[f].key == table[g].key
  {
    hide Words;
    assert Words(a) == Words(b);
  }

  lemma SameClaim(t1: seq<Field>, t2: seq<Field>, header: string, f: int, a: string) returns (g: int)
    requires (forall x :: x in t1 ==> x in t2) && Claims(t1, header, f, a)
    ensures Claims(t2, header, g, a) && t2[g] == t1[f]
  {
    assert t1[f] in t2;
    g :| 0 <= g < |t2| && t2[g] == t1[f];
  }

  /**
   * Among the fields owning the longest alias the first one listed wins, so a shared alias belongs
   * to whichever field comes first.
   */
  lemma FirstOwnerWins(table: seq<Field>, index: seq<Field>, header: string, field: Option<string>, f: int, a: string)
    requires IndexOf(index, table) && Matched(index, NormalizeHeader(header), field)
    requires LongestClaim(table, header, f, a)
    requires forall g, b :: 0 <= g < f && b in table[g].aliases ==> Words(b) != Words(a)
    ensures field == Some(table[f].key)
  {
    OwnerIsFirst(table, index, header, f, a);
    KeyOf(index, table, f);
    hide *;
    MatchedIsFirst(index, NormalizeHeader(header), field, f, |NormalizeHeader(a)|);
  }

  lemma KeyOf(index: seq<Field>, table: seq<Field>, f: int)
    requires IndexOf(index, table) && 0 <= f < |table|
    ensures |index| == |table| && index[f].key == table[f].key
  {
    assert Represents(index[f], table[f]);
  }

  lemma MatchedIsFirst(index: seq<Field>, text: string, field: Option<string>, f: int, n: int)
    requires Matched(index, text, field) && FirstLongest(index, text, f, n) && 0 <= f < |index|
    ensures field == Some(index[f].key)
  {
    hide Owns;
  }

  lemma OwnerIsFirst(table: seq<Field>, index: seq<Field>, header: string, f: int, a: string)
    requires IndexOf(index, table) && LongestClaim(table, header, f, a)
    requires forall g, b :: 0 <= g < f && b in table[g].aliases ==> Words(b) != Words(a)
    ensures 0 <= f < |table| && FirstLongest(index, NormalizeHeader(header), f, |NormalizeHeader(a)|)
  {
    OwnsIffClaims(index, table, header, f, |NormalizeHeader(a)|);
    hide Owns, NormalizeHeader, Words, IndexOf;
    forall g, m | Owns(index, NormalizeHeader(header), g, m)
      ensures m <= |NormalizeHeader(a)| && (g < f ==> m < |NormalizeHeader(a)|)
    {
      OwnsNoLonger(table, index, header, f, a, g, m);
    }
  }

  /** No field owns a longer alias than the longest claimed one, and none before its first owner one as long. */
  lemma OwnsNoLonger(table: seq<Field>, index: seq<Field>, header: string, f: int, a: string, g: int, m: int)
    requires IndexOf(index, table) && LongestClaim(table, header, f, a)
    requires forall g, b :: 0 <= g < f && b in table[g].aliases ==> Words(b) != Words(a)
    requires Owns(index, NormalizeHeader(header), g, m)
    ensures m <= |NormalizeHeader(a)| && (g < f ==> m < |NormalizeHeader(a)|)
  {
    OwnsInRange(index, NormalizeHeader(header));
    OwnsIffClaims(index, table, header, g, m);
    hide Owns, NormalizeHeader, Words, IndexOf;
    var b :| Claims(table, header, g, b) && |NormalizeHeader(b)| == m;
    ClaimsComparable(table, header, f, a, g, b);
    ClaimsComparable(table, header, g, b, f, a);
  }

  /** When two fields share the longest alias, listing the fields the other way round changes the match. */
  lemma SharedAliasGoesToFirst(one: Field, two: Field, before: seq<Field>, header: string, a: string, b: string,
      i1: seq<Field>, i2: seq<Field>, f1: Option<string>, f2: Option<string>)
    requires a in one.aliases && b in two.aliases && Words(a) == Words(b)
    requires LongestClaim(before + [one, two], header, |before|, a)
    requires forall g, c :: 0 <= g < |before| && c in before[g].aliases ==> Words(c) != Words(a)
    requires IndexOf(i1, before + [one, two]) && Matched(i1, NormalizeHeader(header), f1)
    requires IndexOf(i2, before + [two, one]) && Matched(i2, NormalizeHeader(header), f2)
    ensures f1 == Some(one.key) && f2 == Some(two.key)
  {
    var t1, t2 := before + [one, two], before + [two, one];
    assert t1[|before|] == one && t2[|before|] == two;
    assert forall g :: 0 <= g < |before| ==> t1[g] == t2[g] == before[g];
    SwappedClaims(one, two, before, header, a, b);
    hide *;
    FirstOwnerWins(t1, i1, header, f1, |before|, a);
    FirstOwnerWins(t2, i2, header, f2, |before|, b);
  }

  lemma SwappedClaims(one: Field, two: Field, before: seq<Field>, header: string, a: string, b: string)
    requires a in one.aliases && b in two.aliases && Words(a) == Words(b)
    requires LongestClaim(before + [one, two], header, |before|, a)
    ensures LongestClaim(before + [two, one], header, |before|, b)
  {
    var t1, t2 := before + [one, two], before + [two, one];
    hide Words;
    forall g, c | Claims(t2, header, g, c)
      ensures Words(c) <= Words(b)
    {
      var h := if g == |before| then g + 1 else if g == |before| + 1 then g - 1 else g;
      assert t1[h] == t2[g];
      assert Claims(t1, header, h, c);
    }
  }

  // ---------------------------------------------------------------- the index and the match together

  /** A header against an alias table: the index is built as the service builds it, then searched. */
  method FieldOf(table: seq<Field>, header: string) returns (field: Option<string>)
    ensures field.None? <==> forall f, a :: !Claims(table, header, f, a)
    ensures field.Some? ==> exists f, a :: LongestClaim(table, header, f, a) && table[f].key == field.value
  {
    hide *;
    var index := BuildColumnIndex(table);
    IndexIsUsable(index, table);
    field := MatchField(index, header);
    LongestAliasWins(table, index, header, field);
  }
}
