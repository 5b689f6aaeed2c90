/** Two-digit city codes: pinned codes, codes of known cities, and free numbers for new ones. */
module CityCodes {
  import opened Common
  import opened Decimal

  /** A row of the urban-local-body dump: the body's LGD code and that of its state. */
  datatype Ulb = Ulb(lgd: nat, state: nat)

  type Codes = map<nat, string>

  /** Codes given so far and the numbers they use, by state. */
  datatype Book = Book(codes: Codes, used: map<nat, set<nat>>)

  function Used(b: Book, state: nat): set<nat> {
    if state in b.used then b.used[state] else {}
  }

  /** The last row of a body names its state. */
  function StateOf(rows: seq<Ulb>): (r: map<nat, nat>)
    ensures forall l :: l in r <==> exists u :: u in rows && u.lgd == l
  {
    if rows == [] then map[]
    else
      var n := |rows| - 1;
      assert rows == rows[..n] + [rows[n]];
      StateOf(rows[..n])[rows[n].lgd := rows[n].state]
  }

  /** Pinned codes win, then every known city keeps its code; cities no longer listed are dropped. */
  function Known(rows: seq<Ulb>, pinned: Codes, existing: Codes): Codes {
    var stateOf := StateOf(rows);
    map l | l in stateOf && (l in pinned || l in existing) :: if l in pinned then pinned[l] else existing[l]
  }

  predicate Numeric(codes: Codes) {
    forall l :: l in codes ==> codes[l] != "" && AllDigits(codes[l])
  }

  /** The numbers of the given codes in one state. */
  function NumbersIn(codes: Codes, stateOf: map<nat, nat>, state: nat): set<nat>
    requires Numeric(codes)
  {
    set l | l in codes && l in stateOf && stateOf[l] == state :: Value(codes[l])
  }

  // ---------------------------------------------------------------- the free number

  /** The smallest positive number that is not in `taken`. */
  ghost predicate SmallestFree(n: nat, taken: set<nat>) {
    n >= 1 && n !in taken && forall m :: 1 <= m < n ==> m in taken
  }

  function From(taken: set<nat>, k: nat): set<nat> { set m | m in taken && m >= k }

  lemma FromShrinks(taken: set<nat>, k: nat)
    requires k in taken
    ensures |From(taken, k + 1)| < |From(taken, k)|
  {
    assert From(taken, k) == From(taken, k + 1) + {k};
  }

  /** The first number from `k` on that is not taken. */
  function NextFree(taken: set<nat>, k: nat): (n: nat)
    ensures n >= k && n !in taken && forall m :: k <= m < n ==> m in taken
    decreases |From(taken, k)|
  {
    if k !in taken then k
    else
      FromShrinks(taken, k);
      NextFree(taken, k + 1)
  }

  // ---------------------------------------------------------------- one row, all rows

  /** A row keeps the code its city has, or takes the smallest free number of its state. */
  function Visit(b: Book, u: Ulb): Book {
    if u.lgd in b.codes then b
    else
      var n := NextFree(Used(b, u.state), 1);
      Book(b.codes[u.lgd := Pad(n, 2)], b.used[u.state := Used(b, u.state) + {n}])
  }

  function VisitAll(b: Book, rows: seq<Ulb>): Book {
    if rows == [] then b else Visit(VisitAll(b, rows[..|rows| - 1]), rows[|rows| - 1])
  }

  predicate Ascending(rows: seq<Ulb>) {
    forall i, j :: 0 <= i < j < |rows| ==> rows[i].lgd <= rows[j].lgd
  }

  /** Insertion after the rows that are not greater: a stable sort. */
  function Place(u: Ulb, rows: seq<Ulb>): (r: seq<Ulb>)
    requires Ascending(rows)
    ensures multiset(r) == multiset(rows) + multiset{u}
    ensures Ascending(r)
  {
    if rows == [] then [u]
    else
      var n := |rows| - 1;
      assert rows == rows[..n] + [rows[n]];
      if rows[n].lgd <= u.lgd then rows + [u]
      else
        var r := Place(u, rows[..n]);
        PlacedBelow(u, rows, r);
        r + [rows[n]]
  }

  lemma PlacedBelow(u: Ulb, rows: seq<Ulb>, r: seq<Ulb>)
    requires rows != [] && Ascending(rows) && u.lgd < rows[|rows| - 1].lgd
    requires multiset(r) == multiset(rows[..|rows| - 1]) + multiset{u}
    ensures forall i :: 0 <= i < |r| ==> r[i].lgd <= rows[|rows| - 1].lgd
  {
    forall i | 0 <= i < |r|
      ensures r[i].lgd <= rows[|rows| - 1].lgd
    {
      assert r[i] in multiset(r);
      if r[i] != u {
        assert r[i] in rows[..|rows| - 1];
      }
    }
  }

  function Sorted(rows: seq<Ulb>): (r: seq<Ulb>)
    ensures multiset(r) == multiset(rows) && Ascending(r)
  {
    if rows == [] then []
    else
      var n := |rows| - 1;
      assert rows == rows[..n] + [rows[n]];
      Place(rows[n], Sorted(rows[..n]))
  }

  /** The book before the numbering of new cities. */
  ghost predicate Opening(b: Book, rows: seq<Ulb>, pinned: Codes, existing: Codes) {
    && b.codes == Known(rows, pinned, existing) && Numeric(b.codes)
    && forall s :: Used(b, s) == NumbersIn(b.codes, StateOf(rows), s)
  }

  // ---------------------------------------------------------------- the city part of _build_rows

  /** The first two loops: pinned codes of listed cities, then known codes of the others. */
  method AssignKnown(rows: seq<Ulb>, pinned: Codes, existing: Codes) returns (codes: Codes)
    ensures codes == Known(rows, pinned, existing)
  {
    hide StateOf;
    codes := map[];
    codes := AssignFrom(StateOf(rows), pinned, codes);
    codes := AssignFrom(StateOf(rows), existing, codes);
  }

  /** Give each listed city the code from `source`, unless it has one. */
  method AssignFrom(stateOf: map<nat, nat>, source: Codes, start: Codes) returns (codes: Codes)
    ensures forall l :: l in codes <==> l in start || (l in source && l in stateOf)
    ensures forall l :: l in codes ==> codes[l] == if l in start then start[l] else source[l]
  {
    codes := start;
    var todo := source.Keys;
    while todo != {}
      invariant todo <= source.Keys
      invariant forall l :: l in codes <==> l in start || (l in source && l in stateOf && l !in todo)
      invariant forall l :: l in codes ==> codes[l] == if l in start then start[l] else source[l]
    {
      var lgd :| lgd in todo;
      todo := todo - {lgd};
      if lgd in stateOf && lgd !in codes {
        codes := codes[lgd := source[lgd]];
      }
    }
  }

  lemma NumbersStep(codes: Codes, stateOf: map<nat, nat>, todo: set<nat>, lgd: nat, s: nat)
    requires Numeric(codes) && lgd in codes && lgd in stateOf && lgd in todo && todo <= codes.Keys
    ensures NumbersIn(codes - (todo - {lgd}), stateOf, s)
      == NumbersIn(codes - todo, stateOf, s) + if stateOf[lgd] == s then {Value(codes[lgd])} else {}
  {
    var less, more := codes - todo, codes - (todo - {lgd});
    forall n | n in NumbersIn(more, stateOf, s)
      ensures n in NumbersIn(less, stateOf, s) || (stateOf[lgd] == s && n == Value(codes[lgd]))
    {
      var l :| l in more && l in stateOf && stateOf[l] == s && n == Value(more[l]);
      if l != lgd {
        assert l in less;
      }
    }
    forall n | n in NumbersIn(less, stateOf, s)
      ensures n in NumbersIn(more, stateOf, s)
    {
      var l :| l in less && l in stateOf && stateOf[l] == s && n == Value(less[l]);
      assert l in more;
    }
    if stateOf[lgd] == s {
      assert lgd in more;
    }
  }

  method CollectUsed(codes: Codes, stateOf: map<nat, nat>) returns (b: Book)
    requires Numeric(codes) && codes.Keys <= stateOf.Keys
    ensures b.codes == codes && forall s :: Used(b, s) == NumbersIn(codes, stateOf, s)
  {
    b := Book(codes, map[]);
    var todo := codes.Keys;
    while todo != {}
      invariant todo <= codes.Keys && b.codes == codes
      invariant forall s :: Used(b, s) == NumbersIn(codes - todo, stateOf, s)
    {
      var lgd :| lgd in todo;
      forall s
        ensures NumbersIn(codes - (todo - {lgd}), stateOf, s)
          == NumbersIn(codes - todo, stateOf, s) + if stateOf[lgd] == s then {Value(codes[lgd])} else {}
      {
        NumbersStep(codes, stateOf, todo, lgd, s);
      }
      todo := todo - {lgd};
      var s := stateOf[lgd];
      b := b.(used := b.used[s := Used(b, s) + {Value(codes[lgd])}]);
    }
    assert codes - {} == codes;
  }

  function Counter(counters: map<nat, nat>, state: nat): nat {
    if state in counters then counters[state] else 1
  }

  /** Every number a state's counter has passed is in use. */
  ghost predicate Passed(counters: map<nat, nat>, b: Book) {
    forall s :: 1 <= Counter(counters, s) && forall m :: 1 <= m < Counter(counters, s) ==> m in Used(b, s)
  }

  /** The inner loop: advance a counter to the next free number. */
  method Advance(b: Book, counters: map<nat, nat>, state: nat) returns (n: nat)
    requires Passed(counters, b)
    ensures n == NextFree(Used(b, state), 1)
  {
    n := Counter(counters, state);
    while n in Used(b, state)
      invariant 1 <= n && forall m :: 1 <= m < n ==> m in Used(b, state)
      decreases |From(Used(b, state), n)|
    {
      FromShrinks(Used(b, state), n);
      n := n + 1;
    }
  }

  /** The rows written so far carry the codes of their cities. */
  ghost predicate Written(cities: seq<Ulb>, column: seq<string>, codes: Codes) {
    && |column| <= |cities|
    && forall j :: 0 <= j < |column| ==> cities[j].lgd in codes && column[j] == codes[cities[j].lgd]
  }

  lemma VisitStep(b: Book, u: Ulb, counters: map<nat, nat>, cities: seq<Ulb>, column: seq<string>)
    requires Passed(counters, b) && Written(cities, column, b.codes) && |column| < |cities| && cities[|column|] == u
    ensures var next := Visit(b, u);
      && u.lgd in next.codes
      && Written(cities, column + [next.codes[u.lgd]], next.codes)
      && (u.lgd in b.codes ==> next == b)
      && (u.lgd !in b.codes ==>
           |next.codes| == |b.codes| + 1 && Passed(counters[u.state := NextFree(Used(b, u.state), 1)], next))
  {
    if u.lgd !in b.codes {
      PassedStep(b, u, counters);
    }
    hide Pad, Passed, NextFree, Used;
  }

  lemma PassedStep(b: Book, u: Ulb, counters: map<nat, nat>)
    requires Passed(counters, b) && u.lgd !in b.codes
    ensures Passed(counters[u.state := NextFree(Used(b, u.state), 1)], Visit(b, u))
  {
    var n, next := NextFree(Used(b, u.state), 1), Visit(b, u);
    var moved := counters[u.state := n];
    assert forall m :: 1 <= m < n ==> m in Used(b, u.state);
    assert Used(next, u.state) == Used(b, u.state) + {n};
    assert forall s :: s != u.state ==> Used(next, s) == Used(b, s);
    assert Counter(moved, u.state) == n && forall s :: s != u.state ==> Counter(moved, s) == Counter(counters, s);
    hide Visit, NextFree, Used, Counter;
  }

  method BuildCityRows(rows: seq<Ulb>, pinned: Codes, existing: Codes)
    returns (cities: seq<Ulb>, column: seq<string>, newCities: nat, ghost opening: Book, ghost closing: Book)
    requires Numeric(Known(rows, pinned, existing))
    ensures Opening(opening, rows, pinned, existing)
    ensures cities == Sorted(rows) && closing == VisitAll(opening, cities)
    ensures |column| == |cities| && Written(cities, column, closing.codes)
    ensures newCities == |closing.codes| - |opening.codes|
  {
    hide Written, Passed, NextFree, Known, NumbersIn, Sorted, StateOf;
    KnownListed(rows, pinned, existing);
    var known := AssignKnown(rows, pinned, existing);
    var b := CollectUsed(known, StateOf(rows));
    opening := b;
    cities, column, newCities := Sorted(rows), [], 0;
    var counters: map<nat, nat> := map[];
    NothingWritten(cities, b);
    for i := 0 to |cities|
      invariant b == VisitAll(opening, cities[..i])
      invariant Passed(counters, b)
      invariant newCities == |b.codes| - |opening.codes|
      invariant |column| == i && Written(cities, column, b.codes)
    {
      var u := cities[i];
      assert cities[..i + 1][..i] == cities[..i];
      VisitStep(b, u, counters, cities, column);
      var code;
      if u.lgd in b.codes {
        code := b.codes[u.lgd];
      } else {
        var n := Advance(b, counters, u.state);
        counters := counters[u.state := n];
        code := Pad(n, 2);
        b := Book(b.codes[u.lgd := code], b.used[u.state := Used(b, u.state) + {n}]);
        newCities := newCities + 1;
      }
      column := column + [code];
    }
    assert cities[..|cities|] == cities;
    closing := b;
  }

  lemma KnownListed(rows: seq<Ulb>, pinned: Codes, existing: Codes)
    ensures Known(rows, pinned, existing).Keys <= StateOf(rows).Keys
  {
  }

  lemma NothingWritten(cities: seq<Ulb>, b: Book)
    ensures Written(cities, [], b.codes) && Passed(map[], b)
  {
  }

  // ---------------------------------------------------------------- what the numbering keeps

  function Seen(first: map<nat, nat>, u: Ulb): map<nat, nat> {
    if u.lgd in first then first else first[u.lgd := u.state]
  }

  /** The state on a body's first row, under which it is numbered if it is new. */
  function FirstState(rows: seq<Ulb>): map<nat, nat> {
    if rows == [] then map[] else Seen(FirstState(rows[..|rows| - 1]), rows[|rows| - 1])
  }

  /**
   * The state in which a city uses its number: that of its last row if its code is known, that of
   * its first row if it is new.  The two differ only for a body listed under two states.
   */
  function Home(known: Codes, rows: seq<Ulb>): map<nat, nat> {
    var last, first := StateOf(rows), FirstState(rows);
    map l | l in last && (l in known || l in first) :: if l in known then last[l] else first[l]
  }

  /** `home` gives new bodies the state of their first row. */
  ghost predicate Homed(rows: seq<Ulb>, known: Codes, home: map<nat, nat>) {
    var first := FirstState(rows);
    forall l :: l in first ==> l in home && (l in known || home[l] == first[l])
  }

  lemma {:induction false} FirstStateKeys(rows: seq<Ulb>)
    ensures forall u :: u in rows ==> u.lgd in FirstState(rows)
    ensures FirstState(rows).Keys == StateOf(rows).Keys
  {
    if rows != [] {
      FirstStateKeys(rows[..|rows| - 1]);
      assert rows == rows[..|rows| - 1] + [rows[|rows| - 1]];
    }
  }

  lemma FirstStateAppend(rows: seq<Ulb>, u: Ulb)
    ensures FirstState(rows + [u]) == Seen(FirstState(rows), u)
  {
    assert (rows + [u])[..|rows|] == rows;
  }

  lemma SeenSwap(first: map<nat, nat>, u: Ulb, v: Ulb)
    requires u.lgd != v.lgd
    ensures Seen(Seen(first, u), v) == Seen(Seen(first, v), u)
  {
  }

  lemma PlaceStep(u: Ulb, rows: seq<Ulb>)
    requires Ascending(rows) && rows != []
    ensures var n := |rows| - 1;
      && Ascending(rows[..n]) && rows == rows[..n] + [rows[n]]
      && Place(u, rows) == if rows[n].lgd <= u.lgd then rows + [u] else Place(u, rows[..n]) + [rows[n]]
  {
  }

  /** The sort is stable, so it keeps every body's first row first. */
  lemma {:induction false} PlaceFirstState(u: Ulb, rows: seq<Ulb>)
    requires Ascending(rows)
    ensures FirstState(Place(u, rows)) == Seen(FirstState(rows), u)
  {
    if rows != [] {
      var n := |rows| - 1;
      PlaceStep(u, rows);
      hide *;
      if rows[n].lgd <= u.lgd {
        FirstStateAppend(rows, u);
      } else {
        PlaceFirstState(u, rows[..n]);
        FirstStateAppend(Place(u, rows[..n]), rows[n]);
        FirstStateAppend(rows[..n], rows[n]);
        SeenSwap(FirstState(rows[..n]), u, rows[n]);
      }
    }
  }

  lemma {:induction false} SortedFirstState(rows: seq<Ulb>)
    ensures FirstState(Sorted(rows)) == FirstState(rows)
  {
    if rows != [] {
      var n := |rows| - 1;
      SortedFirstState(rows[..n]);
      PlaceFirstState(rows[n], Sorted(rows[..n]));
    }
  }

  lemma HomeIsHomed(known: Codes, rows: seq<Ulb>)
    ensures Homed(Sorted(rows), known, Home(known, rows))
    ensures Home(known, rows).Keys == StateOf(rows).Keys
  {
    SortedFirstState(rows);
    FirstStateKeys(rows);
    hide Sorted, StateOf, FirstState;
  }

  /** The next row's body has a code, or its home is the state on this row. */
  ghost predicate AtHome(b: Book, u: Ulb, home: map<nat, nat>) {
    u.lgd in home && (u.lgd in b.codes || home[u.lgd] == u.state)
  }

  lemma NextAtHome(b: Book, rows: seq<Ulb>, home: map<nat, nat>)
    requires rows != [] && Homed(rows, b.codes, home)
    ensures var n := |rows| - 1;
      Homed(rows[..n], b.codes, home) && AtHome(VisitAll(b, rows[..n]), rows[n], home)
  {
    var n := |rows| - 1;
    var front := rows[..n];
    VisitAllGrows(b, front);
    FirstStateFrom(front);
    assert FirstState(rows) == Seen(FirstState(front), rows[n]);
    hide VisitAll, FirstState;
    assert rows[n].lgd in FirstState(rows);
    assert forall l :: l in FirstState(front) ==> l in FirstState(rows) && FirstState(rows)[l] == FirstState(front)[l];
  }

  lemma {:induction false} FirstStateFrom(rows: seq<Ulb>)
    ensures forall l :: l in FirstState(rows) ==> exists u :: u in rows && u.lgd == l
  {
    if rows != [] {
      FirstStateFrom(rows[..|rows| - 1]);
      assert rows == rows[..|rows| - 1] + [rows[|rows| - 1]];
    }
  }

  /** The used numbers are those of the codes given. */
  ghost predicate Matches(b: Book, stateOf: map<nat, nat>) {
    && Numeric(b.codes) && b.codes.Keys <= stateOf.Keys
    && forall s :: Used(b, s) == NumbersIn(b.codes, stateOf, s)
  }

  /** No two cities of one state have the same number. */
  ghost predicate DistinctCodes(codes: Codes, stateOf: map<nat, nat>) {
    && Numeric(codes) && codes.Keys <= stateOf.Keys
    && forall k, l :: k in codes && l in codes && k != l && stateOf[k] == stateOf[l] ==>
         Value(codes[k]) != Value(codes[l])
  }

  lemma NumberIn(codes: Codes, stateOf: map<nat, nat>, l: nat)
    requires Numeric(codes) && l in codes && l in stateOf
    ensures Value(codes[l]) in NumbersIn(codes, stateOf, stateOf[l])
  {
  }

  lemma NumbersExtend(codes: Codes, stateOf: map<nat, nat>, l: nat, code: string, s: nat)
    requires Numeric(codes) && l !in codes && l in stateOf && code != "" && AllDigits(code)
    ensures Numeric(codes[l := code])
    ensures NumbersIn(codes[l := code], stateOf, s)
      == NumbersIn(codes, stateOf, s) + if stateOf[l] == s then {Value(code)} else {}
  {
    var more := codes[l := code];
    forall k | k in codes
      ensures k in more && more[k] == codes[k]
    {
    }
    assert l in more && more[l] == code;
  }

  lemma VisitMatches(b: Book, u: Ulb, home: map<nat, nat>)
    requires Matches(b, home) && AtHome(b, u, home)
    ensures Matches(Visit(b, u), home)
  {
    if u.lgd !in b.codes {
      var n := NextFree(Used(b, u.state), 1);
      ValueOfPad(n, 2);
      forall s
        ensures Used(Visit(b, u), s) == NumbersIn(Visit(b, u).codes, home, s)
      {
        NumbersExtend(b.codes, home, u.lgd, Pad(n, 2), s);
      }
      NumbersExtend(b.codes, home, u.lgd, Pad(n, 2), u.state);
    }
  }

  lemma VisitDistinct(b: Book, u: Ulb, home: map<nat, nat>)
    requires Matches(b, home) && AtHome(b, u, home) && Matches(Visit(b, u), home)
    ensures DistinctCodes(Visit(b, u).codes, home) <==> DistinctCodes(b.codes, home)
  {
    if u.lgd !in b.codes {
      var n := NextFree(Used(b, u.state), 1);
      var next := Visit(b, u).codes;
      ValueOfPad(n, 2);
      assert next == b.codes[u.lgd := Pad(n, 2)];
      hide Pad, Visit, Value;
      forall l | l in b.codes && home[l] == u.state
        ensures Value(b.codes[l]) != n
      {
        NumberIn(b.codes, home, l);
      }
      hide Used, NumbersIn, NextFree;
      forall k | k in b.codes
        ensures k in next && next[k] == b.codes[k]
      {
      }
    }
  }

  lemma {:induction false} VisitAllKeeps(b: Book, rows: seq<Ulb>, home: map<nat, nat>)
    requires Matches(b, home) && Homed(rows, b.codes, home)
    ensures Matches(VisitAll(b, rows), home)
    ensures DistinctCodes(VisitAll(b, rows).codes, home) <==> DistinctCodes(b.codes, home)
  {
    if rows != [] {
      var n := |rows| - 1;
      NextAtHome(b, rows, home);
      VisitAllKeeps(b, rows[..n], home);
      VisitMatches(VisitAll(b, rows[..n]), rows[n], home);
      VisitDistinct(VisitAll(b, rows[..n]), rows[n], home);
    }
    hide Matches, DistinctCodes, Visit, Homed, AtHome;
  }

  lemma {:induction false} VisitAllGrows(b: Book, rows: seq<Ulb>)
    ensures var codes := VisitAll(b, rows).codes;
      && (forall l :: l in b.codes ==> l in codes && codes[l] == b.codes[l])
      && (forall u :: u in rows ==> u.lgd in codes)
      && (forall l :: l in codes && l !in b.codes ==> exists u :: u in rows && u.lgd == l)
  {
    if rows != [] {
      var n := |rows| - 1;
      VisitAllGrows(b, rows[..n]);
      assert rows == rows[..n] + [rows[n]];
      hide NextFree, Used;
    }
  }

  // ---------------------------------------------------------------- new cities

  /** The numbers in a city's state held by known cities, or by new ones with a lower LGD code. */
  function NumbersBelow(known: Codes, codes: Codes, home: map<nat, nat>, l: nat): set<nat>
    requires Numeric(codes) && l in home
  {
    set k | k in codes && k in home && home[k] == home[l] && (k in known || k < l) :: Value(codes[k])
  }

  /** Each new city has the smallest positive number that its state had not used when its turn came. */
  ghost predicate NumberedInOrder(known: Codes, codes: Codes, home: map<nat, nat>)
    requires Numeric(codes) && codes.Keys <= home.Keys
  {
    forall l :: l in codes && l !in known ==>
      codes[l] == Pad(Value(codes[l]), 2) && SmallestFree(Value(codes[l]), NumbersBelow(known, codes, home, l))
  }

  lemma BelowAll(known: Codes, codes: Codes, home: map<nat, nat>, l: nat, code: string)
    requires Numeric(codes) && codes.Keys <= home.Keys && l in home && l !in codes && code != "" && AllDigits(code)
    requires forall k :: k in codes && k !in known ==> k < l
    requires l !in known
    ensures Numeric(codes[l := code]) &&
      NumbersBelow(known, codes[l := code], home, l) == NumbersIn(codes, home, home[l])
  {
    var more := codes[l := code];
    forall k | k in codes
      ensures k in more && more[k] == codes[k]
    {
    }
    hide Value, AllDigits;
  }

  lemma BelowSame(known: Codes, codes: Codes, home: map<nat, nat>, l: nat, code: string, k: nat)
    requires Numeric(codes) && codes.Keys <= home.Keys && l in home && l !in codes && code != "" && AllDigits(code)
    requires k in home && k <= l && l !in known
    ensures Numeric(codes[l := code]) &&
      NumbersBelow(known, codes[l := code], home, k) == NumbersBelow(known, codes, home, k)
  {
    var more := codes[l := code];
    forall j | j in codes
      ensures j in more && more[j] == codes[j]
    {
    }
    hide Value, AllDigits;
  }

  /** One more city, numbered after all those before it. */
  lemma NumberOneMore(known: Codes, codes: Codes, home: map<nat, nat>, l: nat, n: nat)
    requires Numeric(codes) && codes.Keys <= home.Keys && l in home && l !in codes && l !in known
    requires NumberedInOrder(known, codes, home)
    requires forall k :: k in codes && k !in known ==> k < l
    requires SmallestFree(n, NumbersIn(codes, home, home[l]))
    ensures Numeric(codes[l := Pad(n, 2)]) && NumberedInOrder(known, codes[l := Pad(n, 2)], home)
  {
    var code := Pad(n, 2);
    ValueOfPad(n, 2);
    assert code != "" && AllDigits(code);
    BelowAll(known, codes, home, l, code);
    hide Pad, Value, NumbersIn, NumbersBelow, AllDigits, SmallestFree, Numeric;
    var next := codes[l := code];
    forall k | k in next && k !in known
      ensures next[k] == Pad(Value(next[k]), 2) && SmallestFree(Value(next[k]), NumbersBelow(known, next, home, k))
    {
      BelowSame(known, codes, home, l, code, k);
    }
  }

  lemma VisitInOrder(b0: Book, b: Book, u: Ulb, home: map<nat, nat>)
    requires Matches(b, home) && AtHome(b, u, home) && Matches(Visit(b, u), home)
    requires NumberedInOrder(b0.codes, b.codes, home) && b0.codes.Keys <= b.codes.Keys
    requires forall k :: k in b.codes && k !in b0.codes ==> k <= u.lgd
    ensures NumberedInOrder(b0.codes, Visit(b, u).codes, home)
  {
    if u.lgd !in b.codes {
      var n := NextFree(Used(b, u.state), 1);
      assert SmallestFree(n, NumbersIn(b.codes, home, u.state));
      NumberOneMore(b0.codes, b.codes, home, u.lgd, n);
      hide Pad, NextFree, NumbersIn, SmallestFree, NumberedInOrder;
    }
  }

  lemma NewAreLower(b: Book, rows: seq<Ulb>, n: nat)
    requires Ascending(rows) && n < |rows|
    ensures forall k :: k in VisitAll(b, rows[..n]).codes && k !in b.codes ==> k <= rows[n].lgd
  {
    var front := rows[..n];
    VisitAllGrows(b, front);
    hide VisitAll;
    forall k | k in VisitAll(b, front).codes && k !in b.codes
      ensures k <= rows[n].lgd
    {
      var u :| u in front && u.lgd == k;
      var i :| 0 <= i < n && front[i] == u;
      assert rows[i] == u;
    }
  }

  lemma FrontOrdered(rows: seq<Ulb>)
    requires Ascending(rows) && rows != []
    ensures Ascending(rows[..|rows| - 1])
  {
  }

  lemma {:induction false} NewCitiesInOrder(b: Book, rows: seq<Ulb>, home: map<nat, nat>)
    requires Matches(b, home) && Homed(rows, b.codes, home) && Ascending(rows)
    ensures Matches(VisitAll(b, rows), home) && NumberedInOrder(b.codes, VisitAll(b, rows).codes, home)
  {
    VisitAllKeeps(b, rows, home);
    if rows != [] {
      var n := |rows| - 1;
      FrontOrdered(rows);
      NextAtHome(b, rows, home);
      NewCitiesInOrder(b, rows[..n], home);
      VisitAllGrows(b, rows[..n]);
      NewAreLower(b, rows, n);
      assert VisitAll(b, rows) == Visit(VisitAll(b, rows[..n]), rows[n]);
      hide *;
      VisitInOrder(b, VisitAll(b, rows[..n]), rows[n], home);
    }
  }

  // ---------------------------------------------------------------- the whole numbering

  lemma OpeningMatches(opening: Book, rows: seq<Ulb>, pinned: Codes, existing: Codes)
    requires Opening(opening, rows, pinned, existing)
    ensures Matches(opening, Home(opening.codes, rows))
    ensures DistinctCodes(opening.codes, Home(opening.codes, rows)) <==> DistinctCodes(opening.codes, StateOf(rows))
  {
    var home := Home(opening.codes, rows);
    KnownListed(rows, pinned, existing);
    forall s
      ensures Used(opening, s) == NumbersIn(opening.codes, home, s)
    {
      SameNumbers(opening.codes, StateOf(rows), home, s);
    }
    hide StateOf, FirstState, Known;
  }

  lemma SameNumbers(codes: Codes, a: map<nat, nat>, b: map<nat, nat>, s: nat)
    requires Numeric(codes) && forall l :: l in codes ==> l in a && l in b && a[l] == b[l]
    ensures NumbersIn(codes, a, s) == NumbersIn(codes, b, s)
  {
  }

  /**
   * The codes of a run: exactly the listed cities have one; pinned ones win, other known cities keep
   * theirs, and every new city, in ascending LGD order, gets the smallest positive number not used
   * in its state.
   */
  lemma CodesAssigned(rows: seq<Ulb>, pinned: Codes, existing: Codes, opening: Book)
    requires Opening(opening, rows, pinned, existing)
    ensures var home, codes := Home(opening.codes, rows), VisitAll(opening, Sorted(rows)).codes;
      && codes.Keys == home.Keys == StateOf(rows).Keys && Numeric(codes)
      && (forall l :: l in codes && l in pinned ==> codes[l] == pinned[l])
      && (forall l :: l in codes && l !in pinned && l in existing ==> codes[l] == existing[l])
      && NumberedInOrder(opening.codes, codes, home)
  {
    OpeningMatches(opening, rows, pinned, existing);
    HomeIsHomed(opening.codes, rows);
    KnownListed(rows, pinned, existing);
    NewCitiesInOrder(opening, Sorted(rows), Home(opening.codes, rows));
    CodesComplete(rows, opening);
    KnownKept(rows, pinned, existing, opening, Sorted(rows));
    hide Sorted, VisitAll, NumberedInOrder, StateOf, Home;
  }

  /** Exactly the listed cities have codes at the end. */
  lemma CodesComplete(rows: seq<Ulb>, opening: Book)
    requires opening.codes.Keys <= StateOf(rows).Keys
    ensures VisitAll(opening, Sorted(rows)).codes.Keys == StateOf(rows).Keys
  {
    var cities := Sorted(rows);
    VisitAllGrows(opening, cities);
    assert forall u :: u in rows <==> u in multiset(rows);
    assert forall u :: u in cities <==> u in multiset(cities);
    hide Sorted, VisitAll, StateOf;
    assert forall u :: u in rows <==> u in cities;
  }

  lemma KnownKept(rows: seq<Ulb>, pinned: Codes, existing: Codes, opening: Book, cities: seq<Ulb>)
    requires opening.codes == Known(rows, pinned, existing)
    ensures var codes := VisitAll(opening, cities).codes;
      && (forall l :: l in StateOf(rows) && l in pinned ==> l in codes && codes[l] == pinned[l])
      && (forall l :: l in StateOf(rows) && l !in pinned && l in existing ==> l in codes && codes[l] == existing[l])
  {
    VisitAllGrows(opening, cities);
    hide VisitAll, StateOf;
  }

  /** No two cities of a state share a number in the output exactly when none did among the known codes. */
  lemma DistinctIffKnownDistinct(rows: seq<Ulb>, pinned: Codes, existing: Codes, opening: Book)
    requires Opening(opening, rows, pinned, existing)
    ensures DistinctCodes(VisitAll(opening, Sorted(rows)).codes, Home(opening.codes, rows))
       <==> DistinctCodes(opening.codes, StateOf(rows))
  {
    OpeningMatches(opening, rows, pinned, existing);
    HomeIsHomed(opening.codes, rows);
    VisitAllKeeps(opening, Sorted(rows), Home(opening.codes, rows));
  }

  lemma {:induction false} NothingNew(b: Book, rows: seq<Ulb>)
    requires forall u :: u in rows ==> u.lgd in b.codes
    ensures VisitAll(b, rows) == b
  {
    if rows != [] {
      NothingNew(b, rows[..|rows| - 1]);
    }
  }

  /** Running again on the codes just written changes no code and numbers no new city. */
  lemma RerunIsStable(rows: seq<Ulb>, pinned: Codes, existing: Codes, opening: Book, reopened: Book)
    requires Opening(opening, rows, pinned, existing)
    requires Opening(reopened, rows, pinned, VisitAll(opening, Sorted(rows)).codes)
    ensures VisitAll(reopened, Sorted(rows)) == reopened
    ensures reopened.codes == VisitAll(opening, Sorted(rows)).codes
  {
    KnownListed(rows, pinned, existing);
    CodesComplete(rows, opening);
    KnownKept(rows, pinned, existing, opening, Sorted(rows));
    KnownAgain(rows, pinned, VisitAll(opening, Sorted(rows)).codes);
    VisitAllGrows(opening, Sorted(rows));
    hide Sorted, VisitAll, StateOf, Known;
    NothingNew(reopened, Sorted(rows));
  }

  lemma KnownAgain(rows: seq<Ulb>, pinned: Codes, codes: Codes)
    requires codes.Keys == StateOf(rows).Keys && forall l :: l in codes && l in pinned ==> codes[l] == pinned[l]
    ensures Known(rows, pinned, codes) == codes
  {
    hide StateOf;
  }
}
