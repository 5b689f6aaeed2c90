/** Group IDs of a district, claimed from a counter that is initialised from the stored IDs. */
module GroupIdAllocator {
  import opened Common
  import opened Decimal
  import opened IdCodec

  /** Two-letter state code followed by a two-digit district code. */
  const PREFIX_WIDTH := 4

  /** The sequence a stored ID carries for a prefix, if it is `prefix` followed by digits only. */
  function StoredSequence(id: string, prefix: string): Option<nat> {
    if prefix <= id && id != prefix && AllDigits(id[|prefix|..]) then Some(Value(id[|prefix|..])) else None
  }

  /** The highest stored sequence of a prefix, 0 when there is none. */
  function MaxStored(stored: seq<string>, prefix: string): (max: nat)
    ensures forall id :: id in stored && StoredSequence(id, prefix).Some? ==> StoredSequence(id, prefix).value <= max
    ensures max == 0 || exists id :: id in stored && StoredSequence(id, prefix) == Some(max)
  {
    if stored == [] then 0
    else
      var rest := MaxStored(stored[1..], prefix);
      match StoredSequence(stored[0], prefix)
      case Some(n) => if n > rest then n else rest
      case None => rest
  }

  datatype Registry = Registry(stored: seq<string>, counters: map<string, nat>)

  datatype Issued = Issued(prefix: string, sequence: nat)

  datatype Op = Create(prefix: string) | Delete(index: nat)

  function LastSequence(r: Registry, prefix: string): nat {
    if prefix in r.counters then r.counters[prefix] else MaxStored(r.stored, prefix)
  }

  function Claim(r: Registry, prefix: string): Registry {
    r.(counters := r.counters[prefix := LastSequence(r, prefix) + 1])
  }

  function NextId(r: Registry, prefix: string): string {
    FormatGroupId(prefix, LastSequence(r, prefix) + 1)
  }

  function Created(r: Registry, prefix: string): Registry {
    Claim(r, prefix).(stored := r.stored + [NextId(r, prefix)])
  }

  /** Group IDs are unique, so a creation whose ID is stored fails and takes its claim back. */
  predicate Accepted(r: Registry, prefix: string) {
    NextId(r, prefix) !in r.stored
  }

  function Step(r: Registry, op: Op): Registry {
    match op
    case Create(prefix) => if Accepted(r, prefix) then Created(r, prefix) else r
    case Delete(i) => if i < |r.stored| then r.(stored := r.stored[..i] + r.stored[i + 1..]) else r
  }

  function Run(r: Registry, ops: seq<Op>): Registry
    decreases ops
  {
    if ops == [] then r else Run(Step(r, ops[0]), ops[1..])
  }

  function IssuedBy(r: Registry, ops: seq<Op>): seq<Issued>
    decreases ops
  {
    if ops == [] then []
    else
      (match ops[0]
       case Create(p) => if Accepted(r, p) then [Issued(p, LastSequence(r, p) + 1)] else []
       case Delete(_) => []) + IssuedBy(Step(r, ops[0]), ops[1..])
  }

  // ---------------------------------------------------------------- freshness

  /** No counter is behind the IDs that are stored, whichever district they belong to. */
  ghost predicate NotBehind(r: Registry) {
    && (forall p :: p in r.counters ==> |p| == PREFIX_WIDTH)
    && (forall p, id :: p in r.counters && id in r.stored && StoredSequence(id, p).Some? ==>
          StoredSequence(id, p).value <= r.counters[p])
  }

  lemma OwnSequence(prefix: string, n: nat)
    ensures StoredSequence(FormatGroupId(prefix, n), prefix) == Some(n)
  {
    var id := FormatGroupId(prefix, n);
    assert id[|prefix|..] == Pad(n, 2);
    ValueOfPad(n, 2);
  }

  lemma ForeignSequence(prefix: string, n: nat, other: string)
    requires |prefix| == |other| && prefix != other
    ensures StoredSequence(FormatGroupId(prefix, n), other) == None
  {
    assert FormatGroupId(prefix, n)[..|other|] == prefix;
  }

  /** A claimed ID is not stored for any group of any district. */
  lemma NextIdIsFresh(r: Registry, prefix: string)
    requires NotBehind(r)
    ensures NextId(r, prefix) !in r.stored
  {
    OwnSequence(prefix, LastSequence(r, prefix) + 1);
  }

  lemma StepKeepsNotBehind(r: Registry, op: Op)
    requires NotBehind(r) && (op.Create? ==> |op.prefix| == PREFIX_WIDTH)
    ensures NotBehind(Step(r, op))
  {
    if op.Create? && Accepted(r, op.prefix) {
      var next, n := Created(r, op.prefix), LastSequence(r, op.prefix) + 1;
      OwnSequence(op.prefix, n);
      forall p | p in next.counters && p != op.prefix
        ensures StoredSequence(NextId(r, op.prefix), p) == None
      {
        ForeignSequence(op.prefix, n, p);
      }
      hide StoredSequence, FormatGroupId;
    }
  }

  /** Counters never fall, and the sequences issued for a district lie above them and increase. */
  ghost predicate Increasing(r: Registry, issued: seq<Issued>) {
    && (forall i :: 0 <= i < |issued| && issued[i].prefix in r.counters ==>
          r.counters[issued[i].prefix] < issued[i].sequence)
    && (forall i, j :: 0 <= i < j < |issued| && issued[i].prefix == issued[j].prefix ==>
          issued[i].sequence < issued[j].sequence)
  }

  lemma IncreasingCons(r: Registry, prefix: string, rest: seq<Issued>)
    requires Increasing(Created(r, prefix), rest)
    ensures Increasing(r, [Issued(prefix, LastSequence(r, prefix) + 1)] + rest)
  {
    var first, next := Issued(prefix, LastSequence(r, prefix) + 1), Created(r, prefix);
    var all := [first] + rest;
    assert next.counters[prefix] == first.sequence;
    assert forall i :: 1 <= i < |all| ==> all[i] == rest[i - 1];
    hide FormatGroupId, MaxStored;
  }

  /**
   * Within a district every issued sequence exceeds all that were issued before it, whatever is
   * created or deleted in between and whether or not the counter existed at the start.
   */
  lemma {:induction false} IssuedIncrease(r: Registry, ops: seq<Op>)
    ensures Increasing(r, IssuedBy(r, ops))
    decreases ops
  {
    if ops != [] {
      hide Increasing;
      var rest := IssuedBy(Step(r, ops[0]), ops[1..]);
      IssuedIncrease(Step(r, ops[0]), ops[1..]);
      match ops[0]
      case Create(p) =>
        if Accepted(r, p) {
          IncreasingCons(r, p, rest);
        } else {
          assert IssuedBy(r, ops) == rest;
        }
      case Delete(_) =>
        SameCounters(r, Step(r, ops[0]), rest);
        assert IssuedBy(r, ops) == rest;
    }
  }

  lemma SameCounters(r: Registry, t: Registry, issued: seq<Issued>)
    requires Increasing(t, issued) && t.counters == r.counters
    ensures Increasing(r, issued)
  {
  }

  /** So an issued ID never comes back, and no two districts share one. */
  lemma IssuedIdsDiffer(r: Registry, ops: seq<Op>, i: nat, j: nat)
    requires i < j < |IssuedBy(r, ops)|
    requires |IssuedBy(r, ops)[i].prefix| == |IssuedBy(r, ops)[j].prefix|
    ensures var a, b := IssuedBy(r, ops)[i], IssuedBy(r, ops)[j];
      FormatGroupId(a.prefix, a.sequence) != FormatGroupId(b.prefix, b.sequence)
  {
    IssuedIncrease(r, ops);
    var a, b := IssuedBy(r, ops)[i], IssuedBy(r, ops)[j];
    GroupIdsInjective(a.prefix, a.sequence, b.prefix, b.sequence);
  }

  ghost predicate FixedWidth(ops: seq<Op>) {
    forall i :: 0 <= i < |ops| && ops[i].Create? ==> |ops[i].prefix| == PREFIX_WIDTH
  }

  /** Over whole runs: no counter falls behind, so the next claim is fresh again. */
  lemma {:induction false} RunStaysFresh(r: Registry, ops: seq<Op>, prefix: string)
    requires NotBehind(r) && FixedWidth(ops)
    ensures NotBehind(Run(r, ops)) && NextId(Run(r, ops), prefix) !in Run(r, ops).stored
    decreases ops
  {
    if ops == [] {
      NextIdIsFresh(r, prefix);
    } else {
      StepKeepsNotBehind(r, ops[0]);
      RunStaysFresh(Step(r, ops[0]), ops[1..], prefix);
    }
  }

  function ClaimTimes(r: Registry, prefix: string, n: nat): Registry
    decreases n
  {
    if n == 0 then r else Claim(ClaimTimes(r, prefix, n - 1), prefix)
  }

  lemma {:induction false} AfterClaims(r: Registry, prefix: string, n: nat)
    ensures LastSequence(ClaimTimes(r, prefix, n), prefix) == LastSequence(r, prefix) + n
    ensures ClaimTimes(r, prefix, n).stored == r.stored
  {
    if n > 0 {
      AfterClaims(r, prefix, n - 1);
    }
  }

  /** All future claims on a counter are fresh exactly when no stored ID of the district lies ahead of it. */
  lemma ClaimsStayFreshIff(r: Registry, prefix: string)
    requires prefix in r.counters
    ensures (forall n :: NextId(ClaimTimes(r, prefix, n), prefix) !in r.stored)
       <==> (forall s: nat :: FormatGroupId(prefix, s) in r.stored ==> s <= r.counters[prefix])
  {
    var last := r.counters[prefix];
    if s: nat :| FormatGroupId(prefix, s) in r.stored && s > last {
      var n := s - last - 1;
      AfterClaims(r, prefix, n);
      assert NextId(ClaimTimes(r, prefix, n), prefix) in r.stored;
    } else {
      forall n: nat
        ensures NextId(ClaimTimes(r, prefix, n), prefix) !in r.stored
      {
        AfterClaims(r, prefix, n);
        assert NextId(ClaimTimes(r, prefix, n), prefix) == FormatGroupId(prefix, last + n + 1);
      }
    }
  }

  /** The ID of that sequence is issued in some run of creations and deletions. */
  ghost predicate CanIssue(r: Registry, prefix: string, sequence: nat) {
    exists ops :: Issued(prefix, sequence) in IssuedBy(r, ops)
  }

  lemma IssuedFirst(r: Registry, op: Op, prefix: string, sequence: nat)
    requires CanIssue(Step(r, op), prefix, sequence)
    ensures CanIssue(r, prefix, sequence)
  {
    var ops :| Issued(prefix, sequence) in IssuedBy(Step(r, op), ops);
    assert ([op] + ops)[1..] == ops;
    assert Issued(prefix, sequence) in IssuedBy(r, [op] + ops);
  }

  /** Nothing stored stands in the way of the sequences above the last one. */
  ghost predicate Unobstructed(r: Registry, prefix: string) {
    forall n: nat :: n > LastSequence(r, prefix) ==> FormatGroupId(prefix, n) !in r.stored
  }

  lemma CreatedUnobstructed(r: Registry, prefix: string)
    requires Unobstructed(r, prefix)
    ensures Accepted(r, prefix) && Unobstructed(Created(r, prefix), prefix)
    ensures LastSequence(Created(r, prefix), prefix) == LastSequence(r, prefix) + 1
  {
    var next := Created(r, prefix);
    forall n: nat | n > LastSequence(next, prefix)
      ensures FormatGroupId(prefix, n) !in next.stored
    {
      GroupIdsInjective(prefix, n, prefix, LastSequence(r, prefix) + 1);
    }
    hide FormatGroupId;
  }

  /** Creations climb to every sequence above the last one. */
  lemma {:induction false} ClimbTo(r: Registry, prefix: string, sequence: nat)
    requires Unobstructed(r, prefix) && LastSequence(r, prefix) < sequence
    ensures CanIssue(r, prefix, sequence)
    decreases sequence - LastSequence(r, prefix)
  {
    CreatedUnobstructed(r, prefix);
    hide Unobstructed;
    if LastSequence(r, prefix) + 1 == sequence {
      assert IssuedBy(r, [Create(prefix)])[0] == Issued(prefix, sequence);
    } else {
      ClimbTo(Step(r, Create(prefix)), prefix, sequence);
      IssuedFirst(r, Create(prefix), prefix, sequence);
    }
  }

  /** With every stored ID deleted, a district goes on from its counter, or starts again without one. */
  lemma {:induction false} StartOver(r: Registry, prefix: string, sequence: nat)
    requires sequence >= 1 && (prefix in r.counters ==> r.counters[prefix] < sequence)
    ensures CanIssue(r, prefix, sequence)
    decreases |r.stored|
  {
    if r.stored == [] {
      ClimbTo(r, prefix, sequence);
    } else {
      StartOver(Step(r, Delete(0)), prefix, sequence);
      IssuedFirst(r, Delete(0), prefix, sequence);
    }
  }

  lemma {:induction false} IssuedFromOne(r: Registry, ops: seq<Op>)
    ensures forall i :: i in IssuedBy(r, ops) ==> i.sequence >= 1
    decreases ops
  {
    if ops != [] {
      IssuedFromOne(Step(r, ops[0]), ops[1..]);
    }
  }

  /**
   * An ID, deleted or not, is issued in some later run exactly when its district has no counter row
   * or a counter below its sequence: deleting brings an ID back only before the first claim.
   */
  lemma IssuedAgainIff(r: Registry, prefix: string, sequence: nat)
    ensures CanIssue(r, prefix, sequence)
       <==> sequence >= 1 && (prefix !in r.counters || r.counters[prefix] < sequence)
  {
    if CanIssue(r, prefix, sequence) {
      var ops :| Issued(prefix, sequence) in IssuedBy(r, ops);
      IssuedFromOne(r, ops);
      IssuedIncrease(r, ops);
    }
    if sequence >= 1 && (prefix !in r.counters || r.counters[prefix] < sequence) {
      StartOver(r, prefix, sequence);
    }
  }

  /** A district's only ID, deleted before the counter row exists, is the next one issued. */
  lemma DeletedBeforeFirstClaimReturns(prefix: string)
    ensures var r := Registry([FormatGroupId(prefix, 1)], map[]);
      NextId(Step(r, Delete(0)), prefix) == FormatGroupId(prefix, 1)
  {
    var r := Registry([FormatGroupId(prefix, 1)], map[]);
    assert Step(r, Delete(0)).stored == [];
  }

  // ---------------------------------------------------------------- the service

  class GroupIds {
    var stored: seq<string>
    var counters: map<string, nat>

    constructor (stored: seq<string>, counters: map<string, nat>)
      ensures Value() == Registry(stored, counters)
    {
      this.stored, this.counters := stored, counters;
    }

    ghost function Value(): Registry
      reads this
    {
      Registry(stored, counters)
    }

    method NextDistrictGroupId(prefix: string) returns (id: string)
      modifies this`counters
      ensures Value() == Claim(old(Value()), prefix) && id == NextId(old(Value()), prefix)
      ensures NotBehind(old(Value())) ==> id !in stored
    {
      if prefix !in counters {
        counters := counters[prefix := MaxStored(stored, prefix)];
      }
      counters := counters[prefix := counters[prefix] + 1];
      id := FormatGroupId(prefix, counters[prefix]);
      if NotBehind(old(Value())) {
        NextIdIsFresh(old(Value()), prefix);
      }
    }

    /** The per-city sequence first raises its counter, so it is above the city's IDs even if the counter lagged. */
    method NextSequence(prefix: string, cityIds: seq<string>) returns (sequence: nat)
      modifies this`counters
      ensures forall id :: id in cityIds && StoredSequence(id, prefix).Some? ==>
        StoredSequence(id, prefix).value < sequence
      ensures prefix in old(counters) ==> old(counters)[prefix] < sequence
      ensures counters == old(counters)[prefix := sequence]
      ensures (prefix in old(counters) && sequence == old(counters)[prefix] + 1) ||
        sequence == MaxStored(cityIds, prefix) + 1
    {
      var highest := MaxStored(cityIds, prefix);
      if highest != 0 {
        if prefix !in counters {
          counters := counters[prefix := highest];
        } else if counters[prefix] < highest {
          counters := counters[prefix := highest];
        }
      }
      if prefix in counters {
        counters := counters[prefix := counters[prefix] + 1];
      } else {
        counters := counters[prefix := 1];
      }
      sequence := counters[prefix];
    }
  }
}
