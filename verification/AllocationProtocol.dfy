/**
 * Concurrent allocation from counter rows.  Transactions interleave freely: each one locks an
 * existing counter row for update, or sees no row and inserts one, increments it, and commits or
 * aborts.  A row somebody else has locked or is inserting makes the step wait; inserting a row that
 * has been committed in the meantime violates the primary key and aborts the transaction.
 */
module AllocationProtocol {
  type Key = nat
  type Tid = nat

  datatype Claim = Claim(key: Key, sequence: nat)

  /** A transaction's own versions of the rows it holds, the keys it saw no row for, its allocations. */
  datatype Txn = Txn(rows: map<Key, nat>, absent: set<Key>, claims: seq<Claim>)

  const IDLE := Txn(map[], {}, [])

  /** `log` lists the committed allocations in commit order. */
  datatype State = State(committed: map<Key, nat>, txns: map<Tid, Txn>, log: seq<Claim>)

  datatype Event =
    | LockRow(tid: Tid, key: Key)
    | SeeNone(tid: Tid, key: Key)
    | InsertRow(tid: Tid, key: Key, initial: nat)
    | Increment(tid: Tid, key: Key)
    | Commit(tid: Tid)
    | Abort(tid: Tid)

  function Of(s: State, t: Tid): Txn {
    if t in s.txns then s.txns[t] else IDLE
  }

  predicate HeldByOther(s: State, t: Tid, k: Key) {
    exists u :: u in s.txns && u != t && k in s.txns[u].rows
  }

  /** A step that is not enabled has to wait. */
  predicate Enabled(s: State, e: Event) {
    match e
    case LockRow(t, k) => k in s.committed && k !in Of(s, t).rows && !HeldByOther(s, t, k)
    case SeeNone(t, k) => k !in s.committed && k !in Of(s, t).rows
    case InsertRow(t, k, _) => k in Of(s, t).absent && k !in Of(s, t).rows && !HeldByOther(s, t, k)
    case Increment(t, k) => k in Of(s, t).rows
    case Commit(_) => true
    case Abort(_) => true
  }

  function Rollback(s: State, t: Tid): State {
    s.(txns := s.txns - {t})
  }

  function Update(s: State, t: Tid, txn: Txn): State {
    s.(txns := s.txns[t := txn])
  }

  function Acquired(txn: Txn, k: Key, value: nat): Txn {
    txn.(rows := txn.rows[k := value])
  }

  function Incremented(txn: Txn, k: Key): Txn
    requires k in txn.rows
  {
    var next := txn.rows[k] + 1;
    txn.(rows := txn.rows[k := next], claims := txn.claims + [Claim(k, next)])
  }

  function Step(s: State, e: Event): State
    requires Enabled(s, e)
  {
    match e
    case LockRow(t, k) =>
      var txn := Of(s, t);
      Update(s, t, Acquired(txn, k, s.committed[k]))
    case SeeNone(t, k) =>
      var txn := Of(s, t);
      Update(s, t, txn.(absent := txn.absent + {k}))
    case InsertRow(t, k, initial) =>
      var txn := Of(s, t);
      if k in s.committed then Rollback(s, t)
      else Update(s, t, Acquired(txn, k, initial))
    case Increment(t, k) =>
      Update(s, t, Incremented(Of(s, t), k))
    case Commit(t) =>
      var txn := Of(s, t);
      State(s.committed + txn.rows, s.txns - {t}, s.log + txn.claims)
    case Abort(t) => Rollback(s, t)
  }

  function Run(s: State, events: seq<Event>): State
    decreases events
  {
    if events == [] then s
    else if Enabled(s, events[0]) then Run(Step(s, events[0]), events[1..])
    else Run(s, events[1..])
  }

  // ---------------------------------------------------------------- the claims on one key

  function On(claims: seq<Claim>, k: Key): seq<nat> {
    if claims == [] then []
    else
      var last := claims[|claims| - 1];
      On(claims[..|claims| - 1], k) + if last.key == k then [last.sequence] else []
  }

  lemma {:induction false} OnAppend(a: seq<Claim>, b: seq<Claim>, k: Key)
    ensures On(a + b, k) == On(a, k) + On(b, k)
  {
    if b == [] {
      assert a + b == a;
    } else {
      var front := b[..|b| - 1];
      assert (a + b)[..|a + b| - 1] == a + front;
      OnAppend(a, front, k);
    }
  }

  lemma OnOne(claims: seq<Claim>, c: Claim, k: Key)
    ensures On(claims + [c], k) == On(claims, k) + if c.key == k then [c.sequence] else []
  {
    assert (claims + [c])[..|claims|] == claims;
  }

  lemma {:induction false} OnContains(claims: seq<Claim>, i: nat)
    requires i < |claims|
    ensures claims[i].sequence in On(claims, claims[i].key)
  {
    if i < |claims| - 1 {
      OnContains(claims[..|claims| - 1], i);
    }
  }

  /** The numbers `from + 1, from + 2, ..., to`, nothing missing and nothing twice. */
  ghost predicate Consecutive(xs: seq<nat>, from: nat, to: nat) {
    && from + |xs| == to
    && forall i :: 0 <= i < |xs| ==> xs[i] == from + 1 + i
  }

  lemma ConsecutiveAppend(xs: seq<nat>, ys: seq<nat>, from: nat, mid: nat, to: nat)
    requires Consecutive(xs, from, mid) && Consecutive(ys, mid, to)
    ensures Consecutive(xs + ys, from, to)
  {
  }

  // ---------------------------------------------------------------- the invariant

  /** The value a counter had before any logged allocation: the stored one, or its initialisation. */
  ghost predicate LogOk(start: map<Key, nat>, s: State, k: Key) {
    if k in s.committed then
      exists from: nat :: Consecutive(On(s.log, k), from, s.committed[k]) && (k in start ==> from == start[k])
    else On(s.log, k) == [] && k !in start
  }

  /** An open transaction has claimed exactly what lies between the committed row and its own version. */
  ghost predicate TxnOk(s: State, txn: Txn, k: Key) {
    if k in txn.rows then
      exists from: nat ::
        Consecutive(On(txn.claims, k), from, txn.rows[k]) && (k in s.committed ==> from == s.committed[k])
    else On(txn.claims, k) == []
  }

  ghost predicate Exclusive(s: State) {
    forall t, u :: t in s.txns && u in s.txns && t != u ==> s.txns[t].rows.Keys !! s.txns[u].rows.Keys
  }

  ghost predicate Inv(start: map<Key, nat>, s: State) {
    && Exclusive(s)
    && (forall k :: LogOk(start, s, k))
    && (forall t, k :: t in s.txns ==> TxnOk(s, s.txns[t], k))
  }

  lemma IdleOk(s: State)
    ensures forall k :: TxnOk(s, IDLE, k)
  {
  }

  lemma UpdateKeeps(start: map<Key, nat>, s: State, t: Tid, txn: Txn)
    requires Inv(start, s)
    requires forall k :: TxnOk(s, txn, k)
    requires forall k :: k in txn.rows ==> k in Of(s, t).rows || !HeldByOther(s, t, k)
    ensures Inv(start, Update(s, t, txn))
  {
    var s' := Update(s, t, txn);
    forall k
      ensures LogOk(start, s', k)
    {
      assert LogOk(start, s, k);
    }
    forall u, k | u in s'.txns
      ensures TxnOk(s', s'.txns[u], k)
    {
      assert u != t ==> TxnOk(s, s.txns[u], k);
      assert u == t ==> TxnOk(s, txn, k);
    }
    forall u | u in s.txns && u != t
      ensures s.txns[u].rows.Keys !! txn.rows.Keys
    {
      forall k | k in txn.rows
        ensures k !in s.txns[u].rows
      {
        assert k in Of(s, t).rows ==> t in s.txns && s.txns[t].rows.Keys !! s.txns[u].rows.Keys;
      }
    }
  }

  lemma RollbackKeeps(start: map<Key, nat>, s: State, t: Tid)
    requires Inv(start, s)
    ensures Inv(start, Rollback(s, t))
  {
    var s' := Rollback(s, t);
    forall k
      ensures LogOk(start, s', k)
    {
      assert LogOk(start, s, k);
    }
    forall u, k | u in s'.txns
      ensures TxnOk(s', s'.txns[u], k)
    {
      assert TxnOk(s, s.txns[u], k);
    }
  }

  lemma OfOk(start: map<Key, nat>, s: State, t: Tid, k: Key)
    requires Inv(start, s)
    ensures TxnOk(s, Of(s, t), k)
  {
    IdleOk(s);
  }

  lemma IncrementOk(s: State, txn: Txn, k: Key, h: Key)
    requires k in txn.rows && TxnOk(s, txn, h)
    ensures TxnOk(s, Incremented(txn, k), h)
  {
    var after := Incremented(txn, k);
    OnOne(txn.claims, Claim(k, txn.rows[k] + 1), h);
    if h == k {
      var from: nat :|
        Consecutive(On(txn.claims, k), from, txn.rows[k]) && (k in s.committed ==> from == s.committed[k]);
      ConsecutiveAppend(On(txn.claims, k), [after.rows[k]], from, txn.rows[k], after.rows[k]);
      hide On;
      assert Consecutive(On(after.claims, k), from, after.rows[k]);
    } else {
      assert On(after.claims, h) == On(txn.claims, h);
    }
  }

  lemma AcquireOk(s: State, txn: Txn, k: Key, value: nat, h: Key)
    requires k !in txn.rows && TxnOk(s, txn, h) && (k in s.committed ==> value == s.committed[k])
    ensures TxnOk(s, Acquired(txn, k, value), h)
  {
    if h == k {
      assert On(txn.claims, k) == [] && Consecutive(On(txn.claims, k), value, value);
    }
  }

  lemma CommitLog(start: map<Key, nat>, s: State, t: Tid, k: Key)
    requires LogOk(start, s, k) && TxnOk(s, Of(s, t), k)
    ensures LogOk(start, Step(s, Commit(t)), k)
  {
    var txn := Of(s, t);
    OnAppend(s.log, txn.claims, k);
    if k in txn.rows {
      var from: nat :|
        Consecutive(On(txn.claims, k), from, txn.rows[k]) && (k in s.committed ==> from == s.committed[k]);
      if k in s.committed {
        var first: nat :| Consecutive(On(s.log, k), first, s.committed[k]) && (k in start ==> first == start[k]);
        ConsecutiveAppend(On(s.log, k), On(txn.claims, k), first, from, txn.rows[k]);
      } else {
        assert On(s.log, k) + On(txn.claims, k) == On(txn.claims, k);
      }
    } else {
      assert On(s.log, k) + [] == On(s.log, k);
    }
  }

  lemma CommitKeeps(start: map<Key, nat>, s: State, t: Tid)
    requires Inv(start, s)
    ensures Inv(start, Step(s, Commit(t)))
  {
    var s' := Step(s, Commit(t));
    forall k
      ensures LogOk(start, s', k)
    {
      OfOk(start, s, t, k);
      assert LogOk(start, s, k);
      CommitLog(start, s, t, k);
    }
    forall u, k | u in s'.txns
      ensures TxnOk(s', s'.txns[u], k)
    {
      assert TxnOk(s, s.txns[u], k);
      assert k in s.txns[u].rows ==> k !in Of(s, t).rows;
    }
  }

  lemma StepKeeps(start: map<Key, nat>, s: State, e: Event)
    requires Inv(start, s) && Enabled(s, e)
    ensures Inv(start, Step(s, e))
  {
    var t := e.tid;
    var txn := Of(s, t);
    forall k {
      OfOk(start, s, t, k);
    }
    hide Inv, TxnOk;
    match e
    case LockRow(_, k) =>
      forall h
        ensures TxnOk(s, Acquired(txn, k, s.committed[k]), h)
      {
        AcquireOk(s, txn, k, s.committed[k], h);
      }
      UpdateKeeps(start, s, t, Acquired(txn, k, s.committed[k]));
    case SeeNone(_, k) =>
      SeenOk(s, txn, k);
      UpdateKeeps(start, s, t, txn.(absent := txn.absent + {k}));
    case InsertRow(_, k, initial) =>
      if k in s.committed {
        RollbackKeeps(start, s, t);
      } else {
        forall h
          ensures TxnOk(s, Acquired(txn, k, initial), h)
        {
          AcquireOk(s, txn, k, initial, h);
        }
        UpdateKeeps(start, s, t, Acquired(txn, k, initial));
      }
    case Increment(_, k) =>
      forall h
        ensures TxnOk(s, Incremented(txn, k), h)
      {
        IncrementOk(s, txn, k, h);
      }
      UpdateKeeps(start, s, t, Incremented(txn, k));
    case Commit(_) => CommitKeeps(start, s, t);
    case Abort(_) => RollbackKeeps(start, s, t);
  }

  lemma SeenOk(s: State, txn: Txn, k: Key)
    requires forall h :: TxnOk(s, txn, h)
    ensures forall h :: TxnOk(s, txn.(absent := txn.absent + {k}), h)
  {
    forall h
      ensures TxnOk(s, txn.(absent := txn.absent + {k}), h)
    {
      assert TxnOk(s, txn, h);
    }
  }

  lemma {:induction false} RunKeeps(start: map<Key, nat>, s: State, events: seq<Event>)
    requires Inv(start, s)
    ensures Inv(start, Run(s, events))
    decreases events
  {
    hide Inv, Step, Enabled;
    if events != [] {
      if Enabled(s, events[0]) {
        StepKeeps(start, s, events[0]);
        RunKeeps(start, Step(s, events[0]), events[1..]);
      } else {
        RunKeeps(start, s, events[1..]);
      }
    }
  }

  // ---------------------------------------------------------------- what the protocol guarantees

  /** The tables before anybody allocates. */
  function Initial(start: map<Key, nat>): State { State(start, map[], []) }

  lemma InitialOk(start: map<Key, nat>)
    ensures Inv(start, Initial(start))
  {
    forall k
      ensures LogOk(start, Initial(start), k)
    {
      if k in start {
        assert Consecutive(On([], k), start[k], start[k]);
      }
    }
  }

  /**
   * However the transactions interleave, the committed allocations on a counter are consecutive
   * numbers in commit order, the last one is the committed counter, and the first one follows the
   * value stored at the start: none is lost, repeated or skipped.
   */
  lemma CommittedClaimsConsecutive(start: map<Key, nat>, events: seq<Event>, k: Key)
    ensures var s := Run(Initial(start), events);
      if k in s.committed then
        exists from: nat :: Consecutive(On(s.log, k), from, s.committed[k]) && (k in start ==> from == start[k])
      else On(s.log, k) == [] && k !in start
  {
    InitialOk(start);
    RunKeeps(start, Initial(start), events);
    assert LogOk(start, Run(Initial(start), events), k);
  }

  /** No two committed allocations are equal; on one counter later commits get larger numbers. */
  lemma CommittedClaimsDistinct(start: map<Key, nat>, events: seq<Event>, i: nat, j: nat)
    requires i < j < |Run(Initial(start), events).log|
    ensures var log := Run(Initial(start), events).log;
      && log[i] != log[j]
      && (log[i].key == log[j].key ==> log[i].sequence < log[j].sequence)
  {
    var s := Run(Initial(start), events);
    var log, k := s.log, s.log[j].key;
    if log[i].key == k {
      CommittedClaimsConsecutive(start, events, k);
      var before, after := log[..j], log[j + 1..];
      OnContains(before, i);
      var p :| 0 <= p < |On(before, k)| && On(before, k)[p] == log[i].sequence;
      assert log == (before + [log[j]]) + after;
      OnAppend(before + [log[j]], after, k);
      OnOne(before, log[j], k);
      var all := On(log, k);
      assert all[p] == log[i].sequence && all[|On(before, k)|] == log[j].sequence;
    }
  }

  /** A committed counter never disappears and never decreases. */
  lemma {:induction false} CommittedNeverDecreases(start: map<Key, nat>, s: State, events: seq<Event>, k: Key)
    requires Inv(start, s) && k in s.committed
    ensures k in Run(s, events).committed && s.committed[k] <= Run(s, events).committed[k]
    decreases events
  {
    if events != [] {
      if Enabled(s, events[0]) {
        var e := events[0];
        StepKeeps(start, s, e);
        assert s.committed[k] <= Step(s, e).committed[k] by {
          OfOk(start, s, e.tid, k);
        }
        hide Inv, Step, Enabled;
        CommittedNeverDecreases(start, Step(s, e), events[1..], k);
      } else {
        CommittedNeverDecreases(start, s, events[1..], k);
      }
    }
  }

  // ---------------------------------------------------------------- progress

  /**
   * A commit makes the transaction's rows and claims visible: its rows replace the stored ones, its
   * claims follow the log, other rows and transactions stay, and the transaction holds nothing more.
   */
  lemma CommitRecords(s: State, t: Tid)
    ensures var after, txn := Step(s, Commit(t)), Of(s, t);
      && (forall k :: k in after.committed <==> k in s.committed || k in txn.rows)
      && (forall k :: k in txn.rows ==> after.committed[k] == txn.rows[k])
      && (forall k :: k in s.committed && k !in txn.rows ==> after.committed[k] == s.committed[k])
      && after.log == s.log + txn.claims && Of(after, t) == IDLE
      && (forall u :: u != t ==> Of(after, u) == Of(s, u))
  {
  }

  /** An increment moves the transaction's own row by one and claims the new value. */
  lemma IncrementClaims(s: State, t: Tid, k: Key)
    requires k in Of(s, t).rows
    ensures var after, txn := Step(s, Increment(t, k)), Of(s, t);
      && after.committed == s.committed && after.log == s.log
      && Of(after, t).rows == txn.rows[k := txn.rows[k] + 1]
      && Of(after, t).claims == txn.claims + [Claim(k, txn.rows[k] + 1)]
      && (forall u :: u != t ==> Of(after, u) == Of(s, u))
  {
  }

  /** A transaction that gives up leaves no trace. */
  lemma AbortForgets(s: State, t: Tid)
    ensures var after := Step(s, Abort(t));
      && after.committed == s.committed && after.log == s.log && Of(after, t) == IDLE
      && (forall u :: u != t ==> Of(after, u) == Of(s, u))
  {
  }

  lemma RunThree(s: State, a: Event, b: Event, c: Event)
    requires Enabled(s, a) && Enabled(Step(s, a), b) && Enabled(Step(Step(s, a), b), c)
    ensures Run(s, [a, b, c]) == Step(Step(Step(s, a), b), c)
  {
    hide Enabled, Step;
    assert [a, b, c][1..] == [b, c] && [b, c][1..] == [c] && [c][1..] == [];
    assert Run(Step(Step(s, a), b), [c]) == Step(Step(Step(s, a), b), c);
    assert Run(Step(s, a), [b, c]) == Run(Step(Step(s, a), b), [c]);
  }

  lemma RunFour(s: State, a: Event, b: Event, c: Event, d: Event)
    requires Enabled(s, a) && Enabled(Step(s, a), b)
    requires Enabled(Step(Step(s, a), b), c) && Enabled(Step(Step(Step(s, a), b), c), d)
    ensures Run(s, [a, b, c, d]) == Step(Step(Step(Step(s, a), b), c), d)
  {
    hide Enabled, Step;
    assert [a, b, c, d][1..] == [b, c, d];
    RunThree(Step(s, a), b, c, d);
  }

  /** An undisturbed allocation on a counter row hands out the next number. */
  lemma AllocatesNext(s: State, t: Tid, k: Key)
    requires Of(s, t) == IDLE && k in s.committed && !HeldByOther(s, t, k)
    ensures var after := Run(s, [LockRow(t, k), Increment(t, k), Commit(t)]);
      && after.committed == s.committed[k := s.committed[k] + 1]
      && after.log == s.log + [Claim(k, s.committed[k] + 1)]
  {
    var locked := Step(s, LockRow(t, k));
    assert Of(locked, t).rows == map[k := s.committed[k]] && Of(locked, t).claims == [];
    IncrementClaims(locked, t, k);
    CommitRecords(Step(locked, Increment(t, k)), t);
    RunThree(s, LockRow(t, k), Increment(t, k), Commit(t));
    hide Run;
  }

  /** The first one on a counter inserts the row and hands out the number after its initial value. */
  lemma AllocatesFirst(s: State, t: Tid, k: Key, initial: nat)
    requires Of(s, t) == IDLE && k !in s.committed && !HeldByOther(s, t, k)
    ensures var after := Run(s, [SeeNone(t, k), InsertRow(t, k, initial), Increment(t, k), Commit(t)]);
      && after.committed == s.committed[k := initial + 1]
      && after.log == s.log + [Claim(k, initial + 1)]
  {
    var inserted := Step(Step(s, SeeNone(t, k)), InsertRow(t, k, initial));
    assert Of(inserted, t).rows == map[k := initial] && Of(inserted, t).claims == [];
    IncrementClaims(inserted, t, k);
    CommitRecords(Step(inserted, Increment(t, k)), t);
    RunFour(s, SeeNone(t, k), InsertRow(t, k, initial), Increment(t, k), Commit(t));
    hide Run;
  }
}
