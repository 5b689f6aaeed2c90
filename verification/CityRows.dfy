/** The city codes of a run, stated on the rows of the dump and the two code tables alone. */
module CityRows {
  import opened Common
  import opened Decimal
  import opened CityCodes

  predicate IsLast(rows: seq<Ulb>, i: nat) {
    i < |rows| && forall j :: i < j < |rows| ==> rows[j].lgd != rows[i].lgd
  }

  predicate IsFirst(rows: seq<Ulb>, i: nat) {
    i < |rows| && forall j :: 0 <= j < i ==> rows[j].lgd != rows[i].lgd
  }

  /** The last row of a body names its state. */
  lemma {:induction false} StateIsLast(rows: seq<Ulb>, i: nat)
    requires IsLast(rows, i)
    ensures rows[i].lgd in StateOf(rows) && StateOf(rows)[rows[i].lgd] == rows[i].state
  {
    var n := |rows| - 1;
    assert rows == rows[..n] + [rows[n]];
    if i < n {
      assert rows[..n][i] == rows[i];
      StateIsLast(rows[..n], i);
    }
  }

  /** A new body is numbered under the state of its first row. */
  lemma {:induction false} FirstStateIsFirst(rows: seq<Ulb>, i: nat)
    requires IsFirst(rows, i)
    ensures rows[i].lgd in FirstState(rows) && FirstState(rows)[rows[i].lgd] == rows[i].state
  {
    var n := |rows| - 1;
    if i < n {
      assert rows[..n][i] == rows[i];
      FirstStateIsFirst(rows[..n], i);
    } else {
      FirstStateFrom(rows[..n]);
    }
  }

  lemma {:induction false} SomeLast(rows: seq<Ulb>, l: nat) returns (i: nat)
    requires exists u :: u in rows && u.lgd == l
    ensures IsLast(rows, i) && rows[i].lgd == l
  {
    var n := |rows| - 1;
    if rows[n].lgd == l {
      i := n;
    } else {
      assert rows == rows[..n] + [rows[n]];
      i := SomeLast(rows[..n], l);
    }
  }

  lemma {:induction false} SomeFirst(rows: seq<Ulb>, l: nat) returns (i: nat)
    requires exists u :: u in rows && u.lgd == l
    ensures IsFirst(rows, i) && rows[i].lgd == l
  {
    if rows[0].lgd == l {
      i := 0;
    } else {
      assert rows == [rows[0]] + rows[1..];
      var k := SomeFirst(rows[1..], l);
      i := k + 1;
      assert forall j :: 0 < j < i ==> rows[j] == rows[1..][j - 1];
    }
  }

  predicate HasCode(pinned: Codes, existing: Codes, l: nat) { l in pinned || l in existing }

  /** The code a city has before the run. */
  function CodeBefore(pinned: Codes, existing: Codes, l: nat): string
    requires HasCode(pinned, existing, l)
  {
    if l in pinned then pinned[l] else existing[l]
  }

  /** The row whose state counts for a body: its last one if it has a code, its first one if not. */
  predicate HomeRow(rows: seq<Ulb>, pinned: Codes, existing: Codes, i: nat) {
    i < |rows| && if HasCode(pinned, existing, rows[i].lgd) then IsLast(rows, i) else IsFirst(rows, i)
  }

  lemma SomeHome(rows: seq<Ulb>, pinned: Codes, existing: Codes, l: nat) returns (i: nat)
    requires l in StateOf(rows)
    ensures HomeRow(rows, pinned, existing, i) && rows[i].lgd == l
  {
    if HasCode(pinned, existing, l) {
      i := SomeLast(rows, l);
    } else {
      i := SomeFirst(rows, l);
    }
    hide StateOf;
  }

  lemma HomeIsRow(rows: seq<Ulb>, pinned: Codes, existing: Codes, i: nat)
    requires HomeRow(rows, pinned, existing, i)
    ensures var home, l := Home(Known(rows, pinned, existing), rows), rows[i].lgd;
      l in home && home[l] == rows[i].state && (l in Known(rows, pinned, existing) <==> HasCode(pinned, existing, l))
  {
    var l := rows[i].lgd;
    assert rows[i] in rows;
    FirstStateKeys(rows);
    if HasCode(pinned, existing, l) {
      StateIsLast(rows, i);
    } else {
      FirstStateIsFirst(rows, i);
    }
    hide StateOf, FirstState, IsLast, IsFirst;
  }

  /** The number a code is read as. */
  function Number(code: string): nat {
    if AllDigits(code) then Value(code) else 0
  }

  /** Whenever two bodies count for one state, their codes are different numbers. */
  ghost predicate DistinctOnRows(rows: seq<Ulb>, pinned: Codes, existing: Codes, codes: Codes)
    requires forall u :: u in rows ==> u.lgd in codes
  {
    forall i: nat, j: nat :: HomeRow(rows, pinned, existing, i) && HomeRow(rows, pinned, existing, j)
      && rows[i].lgd != rows[j].lgd && rows[i].state == rows[j].state
      ==> Number(codes[rows[i].lgd]) != Number(codes[rows[j].lgd])
  }

  /** The same among the bodies that have a code before the run. */
  ghost predicate DistinctBefore(rows: seq<Ulb>, pinned: Codes, existing: Codes) {
    forall i: nat, j: nat :: IsLast(rows, i) && IsLast(rows, j)
      && HasCode(pinned, existing, rows[i].lgd) && HasCode(pinned, existing, rows[j].lgd)
      && rows[i].lgd != rows[j].lgd && rows[i].state == rows[j].state
      ==> Number(CodeBefore(pinned, existing, rows[i].lgd)) != Number(CodeBefore(pinned, existing, rows[j].lgd))
  }

  lemma ListedBodies(rows: seq<Ulb>, codes: Codes)
    requires codes.Keys == StateOf(rows).Keys
    ensures forall u :: u in rows ==> u.lgd in codes
  {
    hide StateOf;
  }

  lemma RowsAreCodes(rows: seq<Ulb>, pinned: Codes, existing: Codes, codes: Codes)
    requires Numeric(codes) && codes.Keys == StateOf(rows).Keys
    ensures forall u :: u in rows ==> u.lgd in codes
    ensures DistinctCodes(codes, Home(Known(rows, pinned, existing), rows)) <==>
      DistinctOnRows(rows, pinned, existing, codes)
  {
    var home := Home(Known(rows, pinned, existing), rows);
    HomeIsHomed(Known(rows, pinned, existing), rows);
    ListedBodies(rows, codes);
    hide StateOf, Home, Known, Homed, Value, HomeRow;
    forall i: nat | HomeRow(rows, pinned, existing, i)
      ensures i < |rows| && rows[i].lgd in home && home[rows[i].lgd] == rows[i].state
    {
      RowInRange(rows, pinned, existing, i);
      HomeIsRow(rows, pinned, existing, i);
    }
    if DistinctOnRows(rows, pinned, existing, codes) {
      RowsDistinctCodes(rows, pinned, existing, codes, home);
    }
  }

  lemma RowInRange(rows: seq<Ulb>, pinned: Codes, existing: Codes, i: nat)
    requires HomeRow(rows, pinned, existing, i)
    ensures i < |rows|
  {
  }

  lemma RowsDistinctCodes(rows: seq<Ulb>, pinned: Codes, existing: Codes, codes: Codes, home: map<nat, nat>)
    requires Numeric(codes) && codes.Keys == StateOf(rows).Keys == home.Keys
    requires forall u :: u in rows ==> u.lgd in codes
    requires forall i: nat :: HomeRow(rows, pinned, existing, i) ==>
      i < |rows| && rows[i].lgd in home && home[rows[i].lgd] == rows[i].state
    requires DistinctOnRows(rows, pinned, existing, codes)
    ensures DistinctCodes(codes, home)
  {
    hide StateOf, Value, HomeRow;
    forall k, l | k in codes && l in codes && k != l && home[k] == home[l]
      ensures Value(codes[k]) != Value(codes[l])
    {
      var i := SomeHome(rows, pinned, existing, k);
      var j := SomeHome(rows, pinned, existing, l);
      assert Number(codes[rows[i].lgd]) != Number(codes[rows[j].lgd]);
    }
  }

  lemma BeforeAreCodes(rows: seq<Ulb>, pinned: Codes, existing: Codes)
    requires Numeric(Known(rows, pinned, existing))
    ensures DistinctCodes(Known(rows, pinned, existing), StateOf(rows)) <==> DistinctBefore(rows, pinned, existing)
  {
    var known := Known(rows, pinned, existing);
    KnownIsBefore(rows, pinned, existing);
    KnownListed(rows, pinned, existing);
    if DistinctBefore(rows, pinned, existing) {
      BeforeDistinctCodes(rows, pinned, existing, known);
    }
    hide StateOf, Known, Value, HasCode, CodeBefore, IsLast;
    forall i: nat | IsLast(rows, i)
      ensures i < |rows| && rows[i].lgd in StateOf(rows) && StateOf(rows)[rows[i].lgd] == rows[i].state
    {
      LastInRange(rows, i);
      StateIsLast(rows, i);
    }
  }

  lemma LastInRange(rows: seq<Ulb>, i: nat)
    requires IsLast(rows, i)
    ensures i < |rows|
  {
  }

  lemma BeforeDistinctCodes(rows: seq<Ulb>, pinned: Codes, existing: Codes, known: Codes)
    requires Numeric(known) && known.Keys <= StateOf(rows).Keys
    requires forall l :: l in known ==> HasCode(pinned, existing, l) && known[l] == CodeBefore(pinned, existing, l)
    requires DistinctBefore(rows, pinned, existing)
    ensures DistinctCodes(known, StateOf(rows))
  {
    hide Value, HasCode, CodeBefore, IsLast;
    forall k, l | k in known && l in known && k != l && StateOf(rows)[k] == StateOf(rows)[l]
      ensures Value(known[k]) != Value(known[l])
    {
      var i := SomeLast(rows, k);
      var j := SomeLast(rows, l);
      LastInRange(rows, i);
      LastInRange(rows, j);
      StateIsLast(rows, i);
      StateIsLast(rows, j);
    }
    hide StateOf;
  }

  lemma KnownIsBefore(rows: seq<Ulb>, pinned: Codes, existing: Codes)
    ensures var known := Known(rows, pinned, existing);
      forall l :: (l in known <==> l in StateOf(rows) && HasCode(pinned, existing, l))
        && (l in known ==> known[l] == CodeBefore(pinned, existing, l))
  {
    hide StateOf;
  }

  /** Bodies that count for one state end with different numbers exactly when those with a code before had them. */
  lemma DistinctOnRowsIff(rows: seq<Ulb>, pinned: Codes, existing: Codes, opening: Book)
    requires Opening(opening, rows, pinned, existing)
    ensures var codes := VisitAll(opening, Sorted(rows)).codes;
      && (forall u :: u in rows ==> u.lgd in codes)
      && (DistinctOnRows(rows, pinned, existing, codes) <==> DistinctBefore(rows, pinned, existing))
  {
    CodesAssigned(rows, pinned, existing, opening);
    DistinctIffKnownDistinct(rows, pinned, existing, opening);
    RowsAreCodes(rows, pinned, existing, VisitAll(opening, Sorted(rows)).codes);
    BeforeAreCodes(rows, pinned, existing);
    hide Sorted, VisitAll, StateOf, Home, Known, DistinctCodes, DistinctOnRows, DistinctBefore;
  }

  /** Every body is listed under one state. */
  predicate OneState(rows: seq<Ulb>) {
    forall u, v :: u in rows && v in rows && u.lgd == v.lgd ==> u.state == v.state
  }

  /** Different bodies of one state have different numbers. */
  ghost predicate CitiesDiffer(rows: seq<Ulb>, codes: Codes)
    requires forall u :: u in rows ==> u.lgd in codes
  {
    forall u, v :: u in rows && v in rows && u.lgd != v.lgd && u.state == v.state ==>
      Number(codes[u.lgd]) != Number(codes[v.lgd])
  }

  /** Different bodies of one state that have codes before the run have different numbers. */
  ghost predicate KnownCitiesDiffer(rows: seq<Ulb>, pinned: Codes, existing: Codes) {
    forall u, v :: u in rows && v in rows && u.lgd != v.lgd && u.state == v.state
      && HasCode(pinned, existing, u.lgd) && HasCode(pinned, existing, v.lgd)
      ==> Number(CodeBefore(pinned, existing, u.lgd)) != Number(CodeBefore(pinned, existing, v.lgd))
  }

  /** The home row of a body listed under one state. */
  lemma RowOf(rows: seq<Ulb>, pinned: Codes, existing: Codes, u: Ulb) returns (i: nat)
    requires OneState(rows) && u in rows
    ensures i < |rows| && HomeRow(rows, pinned, existing, i) && rows[i] == u
  {
    assert u.lgd in StateOf(rows);
    i := SomeHome(rows, pinned, existing, u.lgd);
    assert rows[i] in rows;
    hide StateOf;
  }

  lemma CitiesAreRows(rows: seq<Ulb>, pinned: Codes, existing: Codes, codes: Codes)
    requires OneState(rows) && forall u :: u in rows ==> u.lgd in codes
    ensures CitiesDiffer(rows, codes) <==> DistinctOnRows(rows, pinned, existing, codes)
  {
    hide Number, HasCode, IsLast, IsFirst, OneState;
    if DistinctOnRows(rows, pinned, existing, codes) {
      forall u, v | u in rows && v in rows && u.lgd != v.lgd && u.state == v.state
        ensures Number(codes[u.lgd]) != Number(codes[v.lgd])
      {
        var i := RowOf(rows, pinned, existing, u);
        var j := RowOf(rows, pinned, existing, v);
      }
    }
    if CitiesDiffer(rows, codes) {
      assert forall i: nat :: HomeRow(rows, pinned, existing, i) ==> rows[i] in rows;
    }
  }

  lemma KnownAreRows(rows: seq<Ulb>, pinned: Codes, existing: Codes)
    requires OneState(rows)
    ensures KnownCitiesDiffer(rows, pinned, existing) <==> DistinctBefore(rows, pinned, existing)
  {
    if DistinctBefore(rows, pinned, existing) {
      forall u, v | u in rows && v in rows && u.lgd != v.lgd && u.state == v.state
        && HasCode(pinned, existing, u.lgd) && HasCode(pinned, existing, v.lgd)
        ensures Number(CodeBefore(pinned, existing, u.lgd)) != Number(CodeBefore(pinned, existing, v.lgd))
      {
        var i := RowOf(rows, pinned, existing, u);
        var j := RowOf(rows, pinned, existing, v);
        assert IsLast(rows, i) && IsLast(rows, j);
      }
    }
    hide Number, HasCode, CodeBefore, OneState;
    if KnownCitiesDiffer(rows, pinned, existing) {
      assert forall i: nat :: IsLast(rows, i) ==> rows[i] in rows;
    }
  }

  /**
   * Where every body is listed under one state, two cities of a state end with different numbers
   * exactly when those of them that have codes before the run have different ones.
   */
  lemma CitiesOfStateDiffer(rows: seq<Ulb>, pinned: Codes, existing: Codes, opening: Book)
    requires Opening(opening, rows, pinned, existing) && OneState(rows)
    ensures var codes := VisitAll(opening, Sorted(rows)).codes;
      && (forall u :: u in rows ==> u.lgd in codes)
      && (CitiesDiffer(rows, codes) <==> KnownCitiesDiffer(rows, pinned, existing))
  {
    hide *;
    var codes := VisitAll(opening, Sorted(rows)).codes;
    DistinctOnRowsIff(rows, pinned, existing, opening);
    CitiesAreRows(rows, pinned, existing, codes);
    KnownAreRows(rows, pinned, existing);
  }

  // ---------------------------------------------------------------- the numbering order

  /** The number is held, when the new city of row `i` is numbered, by a city that counts for its state. */
  ghost predicate HeldFor(rows: seq<Ulb>, pinned: Codes, existing: Codes, codes: Codes, i: nat, m: nat)
    requires i < |rows| && forall u :: u in rows ==> u.lgd in codes
  {
    exists j: nat :: HomeRow(rows, pinned, existing, j) && rows[j].state == rows[i].state
      && (HasCode(pinned, existing, rows[j].lgd) || rows[j].lgd < rows[i].lgd) && Number(codes[rows[j].lgd]) == m
  }

  lemma BelowIsHeld(rows: seq<Ulb>, pinned: Codes, existing: Codes, codes: Codes, i: nat, m: nat)
    requires Numeric(codes) && codes.Keys == StateOf(rows).Keys && IsFirst(rows, i)
    requires !HasCode(pinned, existing, rows[i].lgd) && forall u :: u in rows ==> u.lgd in codes
    requires rows[i].lgd in Home(Known(rows, pinned, existing), rows)
    requires m in NumbersBelow(Known(rows, pinned, existing), codes, Home(Known(rows, pinned, existing), rows),
      rows[i].lgd)
    ensures HeldFor(rows, pinned, existing, codes, i, m)
  {
    var known := Known(rows, pinned, existing);
    var home := Home(known, rows);
    HomeIsRow(rows, pinned, existing, i);
    hide StateOf, Home, Known, Value, HasCode, IsLast, IsFirst;
    var k :| k in codes && k in home && home[k] == home[rows[i].lgd] && (k in known || k < rows[i].lgd)
      && Value(codes[k]) == m;
    var j := SomeHome(rows, pinned, existing, k);
    HomeIsRow(rows, pinned, existing, j);
  }

  lemma HeldIsBelow(rows: seq<Ulb>, pinned: Codes, existing: Codes, codes: Codes, i: nat, m: nat)
    requires Numeric(codes) && codes.Keys == StateOf(rows).Keys && IsFirst(rows, i)
    requires !HasCode(pinned, existing, rows[i].lgd) && forall u :: u in rows ==> u.lgd in codes
    requires rows[i].lgd in Home(Known(rows, pinned, existing), rows)
    requires HeldFor(rows, pinned, existing, codes, i, m)
    ensures m in NumbersBelow(Known(rows, pinned, existing), codes, Home(Known(rows, pinned, existing), rows),
      rows[i].lgd)
  {
    HomeIsRow(rows, pinned, existing, i);
    hide StateOf, Home, Known, Value, HasCode, IsLast, IsFirst;
    var j: nat :| HomeRow(rows, pinned, existing, j) && rows[j].state == rows[i].state
      && (HasCode(pinned, existing, rows[j].lgd) || rows[j].lgd < rows[i].lgd) && Number(codes[rows[j].lgd]) == m;
    HomeIsRow(rows, pinned, existing, j);
    assert rows[j] in rows;
  }

  /**
   * A city without a code gets two digits of the smallest positive number that no city of the state
   * on its first row holds, counting the cities with codes before and the new ones of lower LGD code.
   */
  lemma NumberedOnRows(rows: seq<Ulb>, pinned: Codes, existing: Codes, opening: Book, i: nat)
    requires Opening(opening, rows, pinned, existing)
    requires IsFirst(rows, i) && !HasCode(pinned, existing, rows[i].lgd)
    ensures var codes := VisitAll(opening, Sorted(rows)).codes;
      && (forall u :: u in rows ==> u.lgd in codes)
      && rows[i] in rows
      && var n := Number(codes[rows[i].lgd]);
         && codes[rows[i].lgd] == Pad(n, 2) && n >= 1 && !HeldFor(rows, pinned, existing, codes, i, n)
         && forall m :: 1 <= m < n ==> HeldFor(rows, pinned, existing, codes, i, m)
  {
    var codes := VisitAll(opening, Sorted(rows)).codes;
    CodesAssigned(rows, pinned, existing, opening);
    ListedBodies(rows, codes);
    HomeIsRow(rows, pinned, existing, i);
    var l := rows[i].lgd;
    assert rows[i] in rows && l in codes && l !in opening.codes;
    var below := NumbersBelow(opening.codes, codes, Home(opening.codes, rows), l);
    hide Sorted, VisitAll, StateOf, Home, Known, HasCode, IsLast, IsFirst, HeldFor, NumbersBelow, Value, Pad;
    forall m: nat
      ensures m in below <==> HeldFor(rows, pinned, existing, codes, i, m)
    {
      if m in below {
        BelowIsHeld(rows, pinned, existing, codes, i, m);
      }
      if HeldFor(rows, pinned, existing, codes, i, m) {
        HeldIsBelow(rows, pinned, existing, codes, i, m);
      }
    }
    assert SmallestFree(Value(codes[l]), below);
  }

  lemma OneIsHeld(rows: seq<Ulb>, existing: Codes, codes: Codes, m: nat)
    requires rows == [Ulb(100, 23), Ulb(200, 23)] && existing == map[100 := "01"]
    requires 100 in codes && codes[100] == "01" && 200 in codes
    ensures HeldFor(rows, map[], existing, codes, 1, m) <==> m == 1
  {
    assert Number("01") == 1 by { assert "01"[..1] == "0" && "0"[..0] == ""; }
    assert HomeRow(rows, map[], existing, 0);
    hide Number;
  }

  lemma TwoIsFree(rows: seq<Ulb>, existing: Codes, codes: Codes, n: nat)
    requires rows == [Ulb(100, 23), Ulb(200, 23)] && existing == map[100 := "01"]
    requires 100 in codes && codes[100] == "01" && 200 in codes && n >= 1
    requires !HeldFor(rows, map[], existing, codes, 1, n) && forall m :: 1 <= m < n ==>
      HeldFor(rows, map[], existing, codes, 1, m)
    ensures n == 2
  {
    OneIsHeld(rows, existing, codes, 1);
    OneIsHeld(rows, existing, codes, 2);
    OneIsHeld(rows, existing, codes, n);
    hide HeldFor;
  }

  lemma SecondIsNew(rows: seq<Ulb>, existing: Codes)
    requires rows == [Ulb(100, 23), Ulb(200, 23)] && existing == map[100 := "01"]
    ensures IsFirst(rows, 1) && !HasCode(map[], existing, rows[1].lgd)
    ensures 100 in StateOf(rows) && 200 in StateOf(rows)
  {
    assert rows[0] in rows && rows[1] in rows;
    hide StateOf;
  }

  /** A new city beside a known one of its state that has the first number. */
  lemma SecondGetsTwo(rows: seq<Ulb>, existing: Codes, opening: Book)
    requires rows == [Ulb(100, 23), Ulb(200, 23)] && existing == map[100 := "01"]
    requires Opening(opening, rows, map[], existing)
    ensures 200 in VisitAll(opening, Sorted(rows)).codes && VisitAll(opening, Sorted(rows)).codes[200] == Pad(2, 2)
  {
    SecondIsNew(rows, existing);
    hide *;
    var codes := VisitAll(opening, Sorted(rows)).codes;
    NumberedOnRows(rows, map[], existing, opening, 1);
    CodesAssigned(rows, map[], existing, opening);
    TwoIsFree(rows, existing, codes, Number(codes[rows[1].lgd]));
  }
}
