/** Which group codes keep the member IDs of different groups apart. */
module GroupCodes {
  import opened Common
  import opened Decimal
  import opened IdCodec
  import opened MemberGroups
  import opened MemberGroupProofs
  import opened MemberAdditions
  import opened HeldNumbers

  /** No two groups share a code. */
  ghost predicate CodesDistinct(groups: map<GroupId, Group>) {
    forall g, h :: g in groups && h in groups && g != h && groups[g].code != "" ==> groups[g].code != groups[h].code
  }

  /** No code extends another, or not by so little that sequences up to the limit could bridge it. */
  ghost predicate CodesClear(groups: map<GroupId, Group>, limit: nat) {
    forall g, h :: g in groups && h in groups && g != h && groups[g].code != "" && groups[h].code != "" ==>
      Clear(groups[g].code, limit, groups[h].code)
  }

  /** Member IDs up to a sequence are apart exactly when the codes are distinct and clear of each other. */
  lemma ApartToIff(groups: map<GroupId, Group>, limit: nat)
    requires limit >= 1
    ensures ApartTo(groups, limit) <==> CodesDistinct(groups) && CodesClear(groups, limit)
  {
    if CodesDistinct(groups) && CodesClear(groups, limit) {
      ClearIsApart(groups, limit);
    }
    if ApartTo(groups, limit) {
      ApartIsClear(groups, limit);
    }
    hide *;
  }

  lemma ClearIsApart(groups: map<GroupId, Group>, limit: nat)
    requires CodesDistinct(groups) && CodesClear(groups, limit)
    ensures ApartTo(groups, limit)
  {
    forall g, h, m: nat, n: nat | g in groups && h in groups && g != h && groups[g].code != "" && groups[h].code != ""
      && 1 <= m <= limit && 1 <= n <= limit
      ensures FormatMemberId(groups[g].code, m) != FormatMemberId(groups[h].code, n)
    {
      IdsDiffer(groups[g].code, m, groups[h].code, n);
    }
    hide FormatMemberId;
  }

  lemma ApartIsClear(groups: map<GroupId, Group>, limit: nat)
    requires ApartTo(groups, limit) && limit >= 1
    ensures CodesDistinct(groups) && CodesClear(groups, limit)
  {
    hide FormatMemberId, Extends, Extra;
    forall g, h | g in groups && h in groups && g != h && groups[g].code != "" && groups[h].code != ""
      ensures groups[g].code != groups[h].code && Clear(groups[g].code, limit, groups[h].code)
    {
      var c, d := groups[g].code, groups[h].code;
      assert FormatMemberId(c, 1) != FormatMemberId(d, 1);
      if Extends(c, d) && limit > 1000 * Extra(c, d) {
        ExtensionMeets(c, d);
      }
    }
  }

  /** Without a limit, codes are apart exactly when none equals another or extends it by digits. */
  lemma CodesApartIff(groups: map<GroupId, Group>)
    ensures CodesApart(groups) <==>
      CodesDistinct(groups)
      && forall g, h :: g in groups && h in groups && g != h && groups[g].code != "" ==>
           !Extends(groups[g].code, groups[h].code)
  {
    hide ApartTo, Extends, Extra;
    if CodesApart(groups) {
      assert ApartTo(groups, 1);
      ApartToIff(groups, 1);
      forall g, h | g in groups && h in groups && g != h && groups[g].code != ""
        ensures !Extends(groups[g].code, groups[h].code)
      {
        var c, d := groups[g].code, groups[h].code;
        if Extends(c, d) {
          LongerIsText(c, d);
          assert ApartTo(groups, 1000 * Extra(c, d) + 1);
          ApartToIff(groups, 1000 * Extra(c, d) + 1);
        }
      }
    } else {
      var limit: nat :| !ApartTo(groups, limit);
      NothingBelowOne(groups, limit);
      ApartToIff(groups, limit);
    }
  }

  lemma LongerIsText(c: string, d: string)
    requires Extends(c, d)
    ensures d != ""
  {
  }

  lemma NothingBelowOne(groups: map<GroupId, Group>, limit: nat)
    requires !ApartTo(groups, limit)
    ensures limit >= 1
  {
  }

  /** Distinct codes of any form are apart as long as no sequence passes a thousand. */
  lemma ThousandApart(groups: map<GroupId, Group>)
    requires CodesDistinct(groups)
    ensures ApartTo(groups, 1000)
  {
    hide ApartTo, Extends, Extra;
    forall g, h | g in groups && h in groups && g != h && groups[g].code != "" && groups[h].code != ""
      ensures Clear(groups[g].code, 1000, groups[h].code)
    {
      if Extends(groups[g].code, groups[h].code) {
        ExtensionMeets(groups[g].code, groups[h].code);
      }
    }
    ApartToIff(groups, 1000);
  }

  /** A code of a district with a prefix of that width and a sequence up to `most`. */
  ghost predicate DistrictCode(code: string, width: nat, most: nat) {
    exists p, a: nat :: |p| == width && a <= most && code == FormatGroupId(p, a)
  }

  /** Distinct codes of groups up to the hundredth are apart without any limit. */
  lemma HundredApart(groups: map<GroupId, Group>, width: nat)
    requires CodesDistinct(groups)
    requires forall g :: g in groups && groups[g].code != "" ==> DistrictCode(groups[g].code, width, 100)
    ensures CodesApart(groups)
  {
    hide FormatMemberId, FormatGroupId;
    forall limit: nat
      ensures ApartTo(groups, limit)
    {
      forall g, h, m: nat, n: nat | g in groups && h in groups && g != h
        && groups[g].code != "" && groups[h].code != "" && 1 <= m <= limit && 1 <= n <= limit
        ensures FormatMemberId(groups[g].code, m) != FormatMemberId(groups[h].code, n)
      {
        var p, a: nat :| |p| == width && a <= 100 && groups[g].code == FormatGroupId(p, a);
        var q, b: nat :| |q| == width && b <= 100 && groups[h].code == FormatGroupId(q, b);
        MemberIdDecodesUniquely(p, a, m, q, b, n);
      }
    }
  }

  lemma DifferAtFive(c: string, d: string)
    requires |c| > 5 && |d| > 5 && c[5] != d[5]
    ensures c != d && !Extends(c, d) && !Extends(d, c)
  {
  }

  /** An earlier three-digit code beside a two-digit one of the same district. */
  lemma EarlierCodeBeside()
    ensures CodesApart(map[0 := Group("MP09001", false), 1 := Group("MP0902", false)])
  {
    var groups := map[0 := Group("MP09001", false), 1 := Group("MP0902", false)];
    DifferAtFive("MP09001", "MP0902");
    CodesApartIff(groups);
    hide CodesApart, Extends;
  }

  // ---------------------------------------------------------------- past both bounds

  /** A member of the hundred and first group, and a tenth group that has issued a thousand numbers. */
  function Crowded(): Store {
    Store(map[0 := Group("MP0910", false), 1 := Group("MP09101", false)],
          map[0 := Member(None, Some(1), "MP09101001", [Row(1, 1, "MP09101001")], map[]),
              1 := Member(None, None, "", [], map[])],
          map[0 := 1000, 1 := 1])
  }

  lemma CrowdedMeets()
    ensures FormatMemberId("MP0910", 1001) == "MP09101001" == FormatMemberId("MP09101", 1)
  {
    MemberIdCollisionFamily("MP09", 10, 1, 1);
    TenShown();
    assert FormatGroupId("MP09", 101) == "MP09101" && FormatGroupId("MP09", 10) == "MP0910";
    hide Pad;
  }

  lemma TenShown()
    ensures Pad(10, 2) == "10" && Pad(101, 2) == "101" && Pad(1, 3) == "001"
  {
    assert Show(1) == "1" && Show(10) == "10" && Show(101) == Show(10) + "1";
    assert LeftPad("001", 3) == "001" && LeftPad("01", 3) == LeftPad("0" + "01", 3);
    assert "0" + "01" == "001" && "0" + "1" == "01";
  }

  lemma CrowdedValid()
    ensures Valid(Crowded())
  {
    var s := Crowded();
    assert MemberOk(s.groups, s.members[0]) && MemberOk(s.groups, s.members[1]);
    assert NumbersDiffer(s.members[0], s.members[1]) && NumbersDiffer(s.members[1], s.members[0]);
    hide MemberOk, NumbersDiffer;
  }

  lemma CrowdedTaken(s: Store)
    requires s == Crowded()
    ensures 1 in s.members && 0 in s.groups && s.groups[0].code == "MP0910" && NewGroup(s, 1, 0)
    ensures NumberFor(s, 1, 0) == "MP09101001" && Taken(s, 1, 0, "MP09101001")
  {
    CrowdedMeets();
    NoNumberMatches("MP0910");
    assert TakenBy(s, 1, 0, "MP09101001", 0);
    hide FormatMemberId, MembershipNumberMatches, TakenBy;
  }

  /** Past both bounds the next addition to the tenth group meets the hundred and first group's number. */
  lemma CrowdedConflicts()
    ensures var s := Crowded();
      Valid(s) && 1 in s.members && 0 in s.groups && Add(s, 1, 0) == Aborted(Conflict)
    ensures CodesDistinct(Crowded().groups) && !ApartTo(Crowded().groups, 1001)
  {
    CrowdedCodes(Crowded().groups);
    hide *;
    var s := Crowded();
    CrowdedValid();
    CrowdedTaken(s);
    AdditionSucceedsIff(s, 1, 0);
  }

  lemma CrowdedCodes(groups: map<GroupId, Group>)
    requires groups == Crowded().groups
    ensures CodesDistinct(groups) && !ApartTo(groups, 1001)
  {
    CrowdedMeets();
    hide FormatMemberId;
    assert FormatMemberId(groups[0].code, 1001) == FormatMemberId(groups[1].code, 1);
  }
}
