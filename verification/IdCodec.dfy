/** Group IDs and member IDs: a place prefix followed by variable-width sequences. */
module IdCodec {
  import opened Decimal

  const GROUP_SEQUENCE_WIDTH := 2
  const MEMBER_SEQUENCE_WIDTH := 3

  function FormatGroupId(prefix: string, sequence: nat): string {
    prefix + Pad(sequence, GROUP_SEQUENCE_WIDTH)
  }

  function FormatMemberId(groupId: string, sequence: nat): string {
    groupId + Pad(sequence, MEMBER_SEQUENCE_WIDTH)
  }

  /** Whether a visible number has the shape of a member ID of `groupId`. */
  predicate MembershipNumberMatches(number: string, groupId: string) {
    && number != ""
    && groupId <= number
    && |number| - |groupId| >= MEMBER_SEQUENCE_WIDTH
    && AllDigits(number[|groupId|..])
  }

  /** Within one group the sequence is recoverable from the ID, whatever its width. */
  lemma MemberIdsInjectiveInGroup(groupId: string, s: nat, t: nat)
    ensures FormatMemberId(groupId, s) == FormatMemberId(groupId, t) <==> s == t
  {
    if FormatMemberId(groupId, s) == FormatMemberId(groupId, t) {
      assert FormatMemberId(groupId, s)[|groupId|..] == Pad(s, 3);
      assert FormatMemberId(groupId, t)[|groupId|..] == Pad(t, 3);
      ValueOfPad(s, 3);
      ValueOfPad(t, 3);
    }
  }

  lemma GroupIdsInjective(p: string, a: nat, q: string, b: nat)
    requires |p| == |q|
    ensures FormatGroupId(p, a) == FormatGroupId(q, b) <==> p == q && a == b
  {
    var x, y := FormatGroupId(p, a), FormatGroupId(q, b);
    if x == y {
      assert p == x[..|p|] && q == y[..|q|];
      assert x[|p|..] == Pad(a, 2) && y[|q|..] == Pad(b, 2);
      ValueOfPad(a, 2);
      ValueOfPad(b, 2);
    }
  }

  /** The two conditions under which member IDs cannot meet: close sequences, or small groups. */
  predicate Splittable(a: nat, s: nat, b: nat, t: nat) {
    (s < t + 1000 && t < s + 1000) || (a <= 100 && b <= 100)
  }

  /** If one ID's group part is the longer one, the other's member sequence carries the difference. */
  lemma LongerGroup(a: nat, s: nat, b: nat, t: nat)
    requires Pad(a, 2) + Pad(s, 3) == Pad(b, 2) + Pad(t, 3) && |Pad(a, 2)| > |Pad(b, 2)|
    ensures a > 100 && t >= s + 1000
  {
    var front, back, other := Pad(a, 2)[|Pad(b, 2)|..], Pad(s, 3), Pad(t, 3);
    var whole := Pad(a, 2) + back;
    assert other == whole[|Pad(b, 2)|..] == front + back;
    PadLength(a);
    HundredShown();
    assert a == 100 ==> front == "0";
    PadLength(t);
    WideIsShown(t);
    ShownLeads(t);
    assert front[0] == other[0] != '0';
    LeadingDigits(front, back, 3);
    ValueOfPad(s, 3);
    ValueOfPad(t, 3);
    assert Tens(3) == 1000;
    hide Pad, Show, Value;
  }

  lemma HundredShown()
    ensures Pad(100, 2) == "100"
  {
    assert Show(10) == "10";
    assert Show(100) == Show(10) + "0";
  }

  /** A member ID determines the district, the group and the member. */
  lemma MemberIdDecodesUniquely(p: string, a: nat, s: nat, q: string, b: nat, t: nat)
    requires |p| == |q| && Splittable(a, s, b, t)
    ensures FormatMemberId(FormatGroupId(p, a), s) == FormatMemberId(FormatGroupId(q, b), t)
       <==> p == q && a == b && s == t
  {
    var g, h := FormatGroupId(p, a), FormatGroupId(q, b);
    var x, y := FormatMemberId(g, s), FormatMemberId(h, t);
    if x == y {
      assert x == p + (Pad(a, 2) + Pad(s, 3)) && y == q + (Pad(b, 2) + Pad(t, 3));
      assert p == x[..|p|] == y[..|q|] == q;
      assert Pad(a, 2) + Pad(s, 3) == x[|p|..] == y[|q|..] == Pad(b, 2) + Pad(t, 3);
      if |Pad(a, 2)| > |Pad(b, 2)| {
        LongerGroup(a, s, b, t);
      } else if |Pad(b, 2)| > |Pad(a, 2)| {
        LongerGroup(b, t, a, s);
      }
      assert |g| == |h|;
      assert g == x[..|g|] && h == y[..|h|];
      GroupIdsInjective(p, a, q, b);
      MemberIdsInjectiveInGroup(g, s, t);
    }
  }

  /** All IDs of groups up to `groups` and member sequences from `first` to `last` are different. */
  ghost predicate DecodeUpTo(groups: nat, first: nat, last: nat) {
    forall p, a: nat, s: nat, q, b: nat, t: nat ::
      (Meets(p, a, s, q, b, t) && |p| == |q| && a <= groups && b <= groups && first <= s <= last && first <= t <= last)
      ==> p == q && a == b && s == t
  }

  predicate Meets(p: string, a: nat, s: nat, q: string, b: nat, t: nat) {
    FormatMemberId(FormatGroupId(p, a), s) == FormatMemberId(FormatGroupId(q, b), t)
  }

  /**
   * The exact bounds: all IDs decode uniquely iff group sequences stay up to 100 or member sequences
   * lie among a thousand consecutive ones; beyond that groups 10 and 101 meet.
   */
  lemma DecodeUpToIff(groups: nat, first: nat, last: nat)
    requires first <= 999
    ensures DecodeUpTo(groups, first, last) <==> groups <= 100 || last < first + 1000
  {
    if groups <= 100 || last < first + 1000 {
      forall p, a: nat, s: nat, q, b: nat, t: nat | Meets(p, a, s, q, b, t) && |p| == |q| && a <= groups && b <= groups
        && first <= s <= last && first <= t <= last
        ensures p == q && a == b && s == t
      {
        MemberIdDecodesUniquely(p, a, s, q, b, t);
      }
    } else {
      MemberIdCollisionFamily("", 10, 1, first);
      assert Meets("", 101, first, "", 10, 1000 + first);
    }
  }

  /**
   * Past both bounds IDs do collide, and not only once: every member ID of group `10 * b + d`
   * (two-digit `b` or wider, `d` not zero) is also the ID of a member of group `b`.
   */
  lemma MemberIdCollisionFamily(p: string, b: nat, d: nat, s: nat)
    requires b >= 10 && 1 <= d <= 9 && s <= 999
    ensures FormatMemberId(FormatGroupId(p, 10 * b + d), s)
         == FormatMemberId(FormatGroupId(p, b), 1000 * d + s)
  {
    var a, t := 10 * b + d, 1000 * d + s;
    WideIsShown(a);
    WideIsShown(b);
    WideIsShown(t);
    assert Show(a) == Show(b) + [DigitChar(d)];
    ShowWithLeadingDigit(d, s);
    assert (p + Show(a)) + Pad(s, 3) == (p + Show(b)) + ([DigitChar(d)] + Pad(s, 3));
  }

  lemma ShowWithLeadingDigit(d: nat, s: nat)
    requires 1 <= d <= 9 && s <= 999
    ensures Show(1000 * d + s) == [DigitChar(d)] + Pad(s, 3)
  {
    PadLength(s);
    ValueOfPad(s, 3);
    ValueOfFour(DigitChar(d), Pad(s, 3));
    ShowOfValue([DigitChar(d)] + Pad(s, 3));
  }

  lemma ValueOfFour(c: char, b: string)
    requires IsDigit(c) && AllDigits(b) && |b| == 3
    ensures Value([c] + b) == 1000 * DigitValue(c) + Value(b)
  {
    var s := [c] + b;
    assert s[..3] == [c] + b[..2] && s[..3][..2] == [c] + b[..1] && s[..3][..2][..1] == [c];
    assert b[..2][..1] == b[..1];
    assert Value([c]) == DigitValue(c);
    assert Value(b[..1]) == DigitValue(b[0]);
    assert Value([c] + b[..1]) == 10 * Value([c]) + DigitValue(b[0]);
    assert Value(b[..2]) == 10 * Value(b[..1]) + DigitValue(b[1]);
    assert Value([c] + b[..2]) == 10 * Value([c] + b[..1]) + DigitValue(b[1]);
  }

  /** The longer ID is the shorter one with digits after it, the first of them not a zero. */
  predicate Extends(c: string, d: string) {
    c < d && AllDigits(d[|c|..]) && d[|c|] != '0'
  }

  /** The digits that make the longer ID of the shorter one, as a number. */
  function Extra(c: string, d: string): nat
    requires Extends(c, d)
  {
    Value(d[|c|..])
  }

  /** The sequence is too low for a member ID of `c` to be one of a longer `d`. */
  predicate Clear(c: string, m: nat, d: string) {
    Extends(c, d) ==> m <= 1000 * Extra(c, d)
  }

  /** If member IDs of two groups are one text, one group ID extends the other, whose sequence is far on. */
  lemma IdsMeet(c: string, m: nat, d: string, n: nat)
    requires FormatMemberId(c, m) == FormatMemberId(d, n) && |c| < |d| && n >= 1
    ensures Extends(c, d) && m > 1000 * Extra(c, d)
  {
    var x, z, back := FormatMemberId(c, m), d[|c|..], Pad(n, 3);
    assert c == x[..|c|] && d == x[..|d|];
    assert c == d[..|c|] by { assert d[..|c|] == x[..|d|][..|c|] == x[..|c|]; }
    assert Pad(m, 3) == x[|c|..] == z + back;
    assert AllDigits(z) by { assert forall i :: 0 <= i < |z| ==> z[i] == Pad(m, 3)[i]; }
    ValueOfAppend(z, back);
    ValueOfPad(m, 3);
    ValueOfPad(n, 3);
    PadLength(m);
    WideIsShown(m);
    ShownLeads(m);
    assert z[0] == Pad(m, 3)[0];
    TensFromThree(|back|);
    FarOn(Value(z), Tens(|back|), n, m);
    hide Pad, Show, Value, Tens;
  }

  lemma FarOn(z: nat, tens: nat, n: nat, m: nat)
    requires m == z * tens + n && tens >= 1000 && n >= 1
    ensures m > 1000 * z
  {
    assert z * tens >= z * 1000;
  }

  /** The first member ID of the longer group ID is one of the shorter. */
  lemma ExtensionMeets(c: string, d: string)
    requires Extends(c, d)
    ensures FormatMemberId(d, 1) == FormatMemberId(c, 1000 * Extra(c, d) + 1)
    ensures Extra(c, d) >= 1
  {
    var z, one := d[|c|..], Pad(1, 3);
    ValueOfPad(1, 3);
    PadLength(1);
    ShowOfValue(z);
    ValueOfAppend(z, one);
    TensFromThree(3);
    ShowOfValue(z + one);
    var m := 1000 * Extra(c, d) + 1;
    WideIsShown(m);
    assert d == c + z;
    assert d + one == c + (z + one);
    hide Pad, Show, Value, Tens;
  }

  /** Member IDs of two groups differ unless one group ID extends the other and a sequence is far on. */
  lemma IdsDiffer(c: string, m: nat, d: string, n: nat)
    requires c != d && m >= 1 && n >= 1 && Clear(c, m, d) && Clear(d, n, c)
    ensures FormatMemberId(c, m) != FormatMemberId(d, n)
  {
    assert c == FormatMemberId(c, m)[..|c|] && d == FormatMemberId(d, n)[..|d|];
    if FormatMemberId(c, m) == FormatMemberId(d, n) {
      if |c| < |d| {
        IdsMeet(c, m, d, n);
      } else if |d| < |c| {
        IdsMeet(d, n, c, m);
      }
    }
  }

  /** The shape: the group's ID followed by at least three digits. */
  lemma ShapeIff(number: string, groupId: string)
    ensures MembershipNumberMatches(number, groupId)
       <==> exists digits :: number == groupId + digits && |digits| >= 3 && AllDigits(digits)
  {
    if MembershipNumberMatches(number, groupId) {
      assert number == groupId + number[|groupId|..];
    }
    if digits :| number == groupId + digits && |digits| >= 3 && AllDigits(digits) {
      assert number[|groupId|..] == digits;
    }
  }

  /** Every member ID has the shape its own group looks for. */
  lemma OwnNumberMatches(groupId: string, s: nat)
    ensures MembershipNumberMatches(FormatMemberId(groupId, s), groupId)
  {
    var n := FormatMemberId(groupId, s);
    assert n[|groupId|..] == Pad(s, 3);
  }

  /** With two-digit group sequences the shape test recognises the owning group and no other. */
  lemma MatchesExactlyItsOwnGroup(p: string, a: nat, s: nat, q: string, b: nat)
    requires |p| == |q| && a <= 99 && b <= 99
    ensures MembershipNumberMatches(FormatMemberId(FormatGroupId(p, a), s), FormatGroupId(q, b))
       <==> p == q && a == b
  {
    var g, h := FormatGroupId(p, a), FormatGroupId(q, b);
    PadLength(a);
    PadLength(b);
    OwnNumberMatches(g, s);
    var n := FormatMemberId(g, s);
    if MembershipNumberMatches(n, h) {
      assert h == n[..|h|] == g;
      GroupIdsInjective(p, a, q, b);
    }
  }

  /** Past that bound it accepts numbers of another group: group `b` claims those of `10 * b + d`. */
  lemma MatchesAForeignGroup(p: string, b: nat, d: nat, s: nat)
    requires b >= 10 && d <= 9
    ensures MembershipNumberMatches(FormatMemberId(FormatGroupId(p, 10 * b + d), s), FormatGroupId(p, b))
    ensures FormatGroupId(p, 10 * b + d) != FormatGroupId(p, b)
  {
    var a := 10 * b + d;
    WideIsShown(a);
    WideIsShown(b);
    assert Show(a) == Show(b) + [DigitChar(d)];
    var h := FormatGroupId(p, b);
    var n := FormatMemberId(FormatGroupId(p, a), s);
    assert n == h + ([DigitChar(d)] + Pad(s, 3));
    assert n[|h|..] == [DigitChar(d)] + Pad(s, 3);
    GroupIdsInjective(p, a, p, b);
  }

  /** The shape test takes a member ID of one group for one of the other's. */
  predicate Recognised(p: string, a: nat, s: nat, q: string, b: nat) {
    MembershipNumberMatches(FormatMemberId(FormatGroupId(p, a), s), FormatGroupId(q, b))
  }

  /** Among groups up to `groups` the shape test recognises every member ID for its own group only. */
  ghost predicate ShapesApart(groups: nat) {
    forall p, a: nat, s: nat, q, b: nat ::
      |p| == |q| && a <= groups && b <= groups && Recognised(p, a, s, q, b) ==> p == q && a == b
  }

  /** The exact bound of the shape test: from the hundredth group on it confuses groups 10 and 100. */
  lemma ShapesApartIff(groups: nat)
    ensures ShapesApart(groups) <==> groups <= 99
  {
    if groups <= 99 {
      forall p, a: nat, s: nat, q, b: nat | |p| == |q| && a <= groups && b <= groups && Recognised(p, a, s, q, b)
        ensures p == q && a == b
      {
        MatchesExactlyItsOwnGroup(p, a, s, q, b);
      }
    } else {
      MatchesAForeignGroup("", 10, 0, 1);
      assert Recognised("", 100, 1, "", 10);
    }
    hide MembershipNumberMatches, FormatMemberId, FormatGroupId;
  }
}
