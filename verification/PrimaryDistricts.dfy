/** The primary district of a local body: the one covering most of its villages. */
module PrimaryDistricts {
  import opened Common
  import opened Decimal

  /** A row of the coverage dump, one per village, with its cells stripped. */
  datatype Cover = Cover(body: string, district: string, name: string)

  /** How many villages of `body` lie in district `d`. */
  function Votes(rows: seq<Cover>, body: string, d: string): nat {
    if rows == [] then 0
    else
      var last := rows[|rows| - 1];
      Votes(rows[..|rows| - 1], body, d) + if last.body == body && last.district == d then 1 else 0
  }

  /** The district's name on the last such row. */
  function LastName(rows: seq<Cover>, body: string, d: string): string {
    if rows == [] then ""
    else
      var last := rows[|rows| - 1];
      if last.body == body && last.district == d then last.name else LastName(rows[..|rows| - 1], body, d)
  }

  predicate IsCode(d: string) { d != "" && AllDigits(d) }

  /** Most villages first, then the lowest code. */
  predicate Beats(v: nat, d: string, w: nat, e: string)
    requires IsCode(d) && IsCode(e)
  {
    v > w || (v == w && Value(d) <= Value(e))
  }

  ghost predicate IsPrimary(rows: seq<Cover>, body: string, d: string, name: string) {
    && IsCode(d) && Votes(rows, body, d) > 0 && name == LastName(rows, body, d)
    && forall e :: IsCode(e) && Votes(rows, body, e) > 0 ==> Beats(Votes(rows, body, d), d, Votes(rows, body, e), e)
  }

  type Ballots = map<string, map<string, (nat, string)>>

  predicate Voted(b: Ballots, body: string, d: string) { body in b && d in b[body] }

  /** The vote counters and names after the given rows. */
  ghost predicate Counts(b: Ballots, rows: seq<Cover>) {
    && (forall body, d :: Voted(b, body, d) <==> d != "" && Votes(rows, body, d) > 0)
    && (forall body, d :: Voted(b, body, d) ==> b[body][d] == (Votes(rows, body, d), LastName(rows, body, d)))
    && (forall body :: body in b ==> exists d :: d in b[body])
  }

  function Cast(b: Ballots, r: Cover): Ballots {
    var counts := if r.body in b then b[r.body] else map[];
    var before := if r.district in counts then counts[r.district].0 else 0;
    b[r.body := counts[r.district := (before + 1, r.name)]]
  }

  lemma VotesStep(rows: seq<Cover>, r: Cover, body: string, d: string)
    ensures Votes(rows + [r], body, d) == Votes(rows, body, d) + if r.body == body && r.district == d then 1 else 0
    ensures LastName(rows + [r], body, d) ==
      if r.body == body && r.district == d then r.name else LastName(rows, body, d)
  {
    assert (rows + [r])[..|rows|] == rows;
  }

  lemma CastCell(b: Ballots, r: Cover, body: string, d: string)
    ensures Voted(Cast(b, r), body, d) <==> Voted(b, body, d) || (body == r.body && d == r.district)
    ensures Voted(Cast(b, r), body, d) && !(body == r.body && d == r.district) ==> Cast(b, r)[body][d] == b[body][d]
    ensures Cast(b, r)[r.body][r.district] ==
      (if Voted(b, r.body, r.district) then b[r.body][r.district].0 + 1 else 1, r.name)
  {
  }

  lemma CastBodies(b: Ballots, r: Cover)
    requires forall body :: body in b ==> exists d :: d in b[body]
    ensures forall body :: body in Cast(b, r) ==> exists d :: d in Cast(b, r)[body]
  {
    assert r.district in Cast(b, r)[r.body];
  }

  lemma CountedCell(b: Ballots, rows: seq<Cover>, r: Cover, body: string, d: string)
    requires Counts(b, rows)
    ensures var next := if r.district == "" then b else Cast(b, r);
      && (Voted(next, body, d) <==> d != "" && Votes(rows + [r], body, d) > 0)
      && (Voted(next, body, d) ==> next[body][d] == (Votes(rows + [r], body, d), LastName(rows + [r], body, d)))
  {
    VotesStep(rows, r, body, d);
    CastCell(b, r, body, d);
    hide Cast, Votes, LastName;
  }

  lemma CastCounts(b: Ballots, rows: seq<Cover>, r: Cover)
    requires Counts(b, rows)
    ensures Counts(if r.district == "" then b else Cast(b, r), rows + [r])
  {
    var next := if r.district == "" then b else Cast(b, r);
    CastBodies(b, r);
    hide Cast, Votes, LastName;
    forall body, d
      ensures Voted(next, body, d) <==> d != "" && Votes(rows + [r], body, d) > 0
      ensures Voted(next, body, d) ==> next[body][d] == (Votes(rows + [r], body, d), LastName(rows + [r], body, d))
    {
      CountedCell(b, rows, r, body, d);
    }
  }

  method CountVotes(rows: seq<Cover>) returns (ballots: Ballots)
    ensures Counts(ballots, rows)
  {
    ballots := map[];
    for i := 0 to |rows|
      invariant Counts(ballots, rows[..i])
    {
      CastCounts(ballots, rows[..i], rows[i]);
      assert rows[..i + 1] == rows[..i] + [rows[i]];
      hide Counts, Cast;
      if rows[i].district == "" {
        continue;
      }
      ballots := Cast(ballots, rows[i]);
    }
    assert rows[..|rows|] == rows;
  }

  /** The first of the counted districts in the order of votes and codes. */
  method Best(counts: map<string, (nat, string)>) returns (best: string)
    requires counts != map[] && forall d :: d in counts ==> IsCode(d)
    ensures best in counts && forall e :: e in counts ==> Beats(counts[best].0, best, counts[e].0, e)
  {
    best :| best in counts;
    var todo := counts.Keys;
    while todo != {}
      invariant best in counts && todo <= counts.Keys
      invariant forall e :: e in counts && e !in todo ==> Beats(counts[best].0, best, counts[e].0, e)
    {
      var d :| d in todo;
      todo := todo - {d};
      if !Beats(counts[best].0, best, counts[d].0, d) {
        best := d;
      }
    }
  }

  method PrimaryOf(ballots: Ballots, ghost rows: seq<Cover>, body: string) returns (d: string, name: string)
    requires Counts(ballots, rows) && body in ballots
    requires forall x, e :: Votes(rows, x, e) > 0 ==> e == "" || IsCode(e)
    ensures IsPrimary(rows, body, d, name)
  {
    BallotOk(ballots, rows, body);
    d := Best(ballots[body]);
    BestIsPrimary(ballots, rows, body, d);
    name := ballots[body][d].1;
  }

  ghost predicate HasVotes(rows: seq<Cover>, body: string) {
    exists d :: d != "" && Votes(rows, body, d) > 0
  }

  /** Every body with a village in a named district gets its primary district, and no other body does. */
  method PrimaryDistricts(rows: seq<Cover>) returns (primary: map<string, (string, string)>)
    requires forall r :: r in rows ==> r.district == "" || IsCode(r.district)
    ensures forall body :: body in primary <==> HasVotes(rows, body)
    ensures forall body :: body in primary ==> IsPrimary(rows, body, primary[body].0, primary[body].1)
  {
    var ballots := CountVotes(rows);
    VotesAreCodes(rows);
    BallotBodies(ballots, rows);
    hide IsPrimary, Counts, Votes, IsCode, HasVotes;
    primary := map[];
    var todo := ballots.Keys;
    while todo != {}
      invariant todo <= ballots.Keys
      invariant forall body :: body in primary <==> body in ballots && body !in todo
      invariant forall body :: body in primary ==> IsPrimary(rows, body, primary[body].0, primary[body].1)
    {
      var body :| body in todo;
      todo := todo - {body};
      var d, name := PrimaryOf(ballots, rows, body);
      primary := primary[body := (d, name)];
    }
  }

  lemma BallotBodies(b: Ballots, rows: seq<Cover>)
    requires Counts(b, rows)
    ensures forall body :: body in b <==> HasVotes(rows, body)
  {
    hide Votes, LastName;
    forall body
      ensures body in b <==> HasVotes(rows, body)
    {
      if body in b {
        var d :| d in b[body];
        assert Voted(b, body, d);
        assert d != "" && Votes(rows, body, d) > 0;
      }
      if HasVotes(rows, body) {
        var d :| d != "" && Votes(rows, body, d) > 0;
        assert Voted(b, body, d);
      }
    }
  }

  lemma {:induction false} VotesAreCodes(rows: seq<Cover>)
    requires forall r :: r in rows ==> r.district == "" || IsCode(r.district)
    ensures forall body, d :: Votes(rows, body, d) > 0 ==> d == "" || IsCode(d)
  {
    if rows != [] {
      VotesAreCodes(rows[..|rows| - 1]);
    }
  }

  lemma BallotOk(b: Ballots, rows: seq<Cover>, body: string)
    requires Counts(b, rows) && body in b
    requires forall x, d :: Votes(rows, x, d) > 0 ==> d == "" || IsCode(d)
    ensures b[body] != map[] && forall d :: d in b[body] ==> IsCode(d)
  {
    assert forall d :: d in b[body] ==> Voted(b, body, d);
  }

  lemma BestIsPrimary(b: Ballots, rows: seq<Cover>, body: string, best: string)
    requires Counts(b, rows) && body in b && best in b[body] && forall d :: d in b[body] ==> IsCode(d)
    requires forall e :: e in b[body] ==> Beats(b[body][best].0, best, b[body][e].0, e)
    ensures IsPrimary(rows, body, best, b[body][best].1)
  {
    assert Voted(b, body, best);
    forall e | IsCode(e) && Votes(rows, body, e) > 0
      ensures Beats(Votes(rows, body, best), best, Votes(rows, body, e), e)
    {
      assert Voted(b, body, e);
    }
  }

  /** Two answers for one body name districts with the same number: the choice is deterministic. */
  lemma PrimaryUnique(rows: seq<Cover>, body: string, d: string, name: string, e: string, other: string)
    requires IsPrimary(rows, body, d, name) && IsPrimary(rows, body, e, other)
    ensures Value(d) == Value(e) && Votes(rows, body, d) == Votes(rows, body, e)
  {
    assert Beats(Votes(rows, body, d), d, Votes(rows, body, e), e);
    assert Beats(Votes(rows, body, e), e, Votes(rows, body, d), d);
  }

  // ---------------------------------------------------------------- the votes in terms of the rows

  predicate For(r: Cover, body: string, d: string) { r.body == body && r.district == d }

  /** The votes of a district are the rows that name it for the body. */
  lemma {:induction false} VotesAre(rows: seq<Cover>, body: string, d: string)
    ensures Votes(rows, body, d) == |set i | 0 <= i < |rows| && For(rows[i], body, d)|
  {
    if rows != [] {
      var n := |rows| - 1;
      VotesAre(rows[..n], body, d);
      var before := set i | 0 <= i < |rows[..n]| && For(rows[..n][i], body, d);
      var all := set i | 0 <= i < |rows| && For(rows[i], body, d);
      assert all == if For(rows[n], body, d) then before + {n} else before;
    }
  }

  /** The name that goes with a district is the one on the last of those rows. */
  lemma {:induction false} LastNameIs(rows: seq<Cover>, body: string, d: string, i: nat)
    requires i < |rows| && For(rows[i], body, d) && forall j :: i < j < |rows| ==> !For(rows[j], body, d)
    ensures LastName(rows, body, d) == rows[i].name
  {
    var n := |rows| - 1;
    if i < n {
      assert !For(rows[n], body, d);
      assert rows[..n][i] == rows[i];
      LastNameIs(rows[..n], body, d, i);
    }
  }

  /** The rows that name a district for a body. */
  function Naming(rows: seq<Cover>, body: string, d: string): set<int> {
    set i | 0 <= i < |rows| && For(rows[i], body, d)
  }

  /**
   * The primary district of a body is named by at least as many of its rows as any other, by more
   * than any with a lower code, and carries the name on the last of them.
   */
  lemma PrimaryIs(rows: seq<Cover>, body: string, d: string, name: string, i: nat, e: string)
    requires IsPrimary(rows, body, d, name) && IsCode(e) && e != d
    requires i < |rows| && For(rows[i], body, d) && forall j :: i < j < |rows| ==> !For(rows[j], body, d)
    ensures name == rows[i].name
    ensures |Naming(rows, body, e)| <= |Naming(rows, body, d)|
    ensures Value(e) < Value(d) ==> |Naming(rows, body, e)| < |Naming(rows, body, d)|
  {
    LastNameIs(rows, body, d, i);
    VotesAre(rows, body, d);
    VotesAre(rows, body, e);
    hide Votes, LastName, Value;
  }
}
