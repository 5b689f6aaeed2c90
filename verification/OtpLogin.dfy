/** One-time login codes: the request limit, supersession, lockout and single use, over time in seconds. */
module OtpLogin {
  import opened Common

  const HOUR: int := 3600

  type UserId = nat

  datatype Config = Config(expireSeconds: nat, maxAttempts: nat, maxPerHour: nat)

  /** A stored code; a guess matches it when it equals `secret`. */
  datatype Otp = Otp(phone: string, user: UserId, secret: string, created: int, expires: int, attempts: nat,
      verified: Option<int>)

  type Codes = seq<Otp>

  datatype Account = Account(user: UserId, active: bool)

  /** `account` is who owns the number, `sent` whether the gateway took the message. */
  datatype Event =
    | Request(phone: string, account: Option<Account>, secret: string, sent: bool, now: int)
    | Verify(phone: string, guess: string, active: set<UserId>, pick: nat, now: int)

  datatype Outcome =
    | NoAccount | NotActive | TooMany | NotSent | Issued(code: nat)
    | NoCode | Wrong(code: nat) | Expired(code: nat) | OwnerInactive(code: nat) | LoggedIn(code: nat)

  // ---------------------------------------------------------------- what each request does

  /** How many codes of `phone` were created from `lo` to `hi`, both included. */
  function CountIn(codes: Codes, phone: string, lo: int, hi: int): nat {
    if codes == [] then 0
    else
      var last := codes[|codes| - 1];
      CountIn(codes[..|codes| - 1], phone, lo, hi) + if last.phone == phone && lo <= last.created <= hi then 1 else 0
  }

  function CountSince(codes: Codes, phone: string, lo: int): nat {
    if codes == [] then 0
    else
      var last := codes[|codes| - 1];
      CountSince(codes[..|codes| - 1], phone, lo) + if last.phone == phone && lo <= last.created then 1 else 0
  }

  function Supersede(o: Otp, phone: string, now: int): Otp {
    if o.phone == phone && o.verified.None? && o.expires > now then o.(expires := now) else o
  }

  /** The bulk update that expires the older codes of the number. */
  function Superseded(codes: Codes, phone: string, now: int): (r: Codes)
    ensures |r| == |codes| && forall i :: 0 <= i < |codes| ==> r[i] == Supersede(codes[i], phone, now)
  {
    seq(|codes|, i requires 0 <= i < |codes| => Supersede(codes[i], phone, now))
  }

  function NewCode(cfg: Config, e: Event, user: UserId): Otp
    requires e.Request?
  {
    Otp(e.phone, user, e.secret, e.now, e.now + cfg.expireSeconds, 0, None)
  }

  function AfterRequest(cfg: Config, codes: Codes, e: Event): (Codes, Outcome)
    requires e.Request?
  {
    if e.account.None? then (codes, NoAccount)
    else if !e.account.value.active then (codes, NotActive)
    else if CountSince(codes, e.phone, e.now - HOUR) >= cfg.maxPerHour then (codes, TooMany)
    else if !e.sent then (codes, NotSent)
    else (Superseded(codes, e.phone, e.now) + [NewCode(cfg, e, e.account.value.user)], Issued(|codes|))
  }

  predicate Open(codes: Codes, phone: string, i: int) {
    0 <= i < |codes| && codes[i].phone == phone && codes[i].verified.None?
  }

  /** An unverified code of the number that no other unverified one is newer than. */
  ghost predicate Newest(codes: Codes, phone: string, i: int) {
    Open(codes, phone, i) && forall j :: Open(codes, phone, j) ==> codes[j].created <= codes[i].created
  }

  /** A wrong guess counts; from the last permitted one on it also expires the code. */
  function Guessed(cfg: Config, o: Otp, now: int): Otp {
    o.(attempts := o.attempts + 1, expires := if o.attempts + 1 >= cfg.maxAttempts then now else o.expires)
  }

  function AfterVerify(cfg: Config, codes: Codes, e: Event): (Codes, Outcome)
    requires e.Verify?
  {
    var i := e.pick;
    if !Open(codes, e.phone, i) then (codes, NoCode)
    else if e.guess != codes[i].secret then (codes[i := Guessed(cfg, codes[i], e.now)], Wrong(i))
    else if codes[i].expires <= e.now then (codes, Expired(i))
    else if codes[i].user !in e.active then (codes, OwnerInactive(i))
    else (codes[i := codes[i].(verified := Some(e.now))], LoggedIn(i))
  }

  function Step(cfg: Config, codes: Codes, e: Event): (Codes, Outcome) {
    match e
    case Request(_, _, _, _, _) => AfterRequest(cfg, codes, e)
    case Verify(_, _, _, _, _) => AfterVerify(cfg, codes, e)
  }

  // ---------------------------------------------------------------- the service

  /** The `otp_codes` table as the login service updates it. */
  class OtpService {
    const cfg: Config
    var codes: Codes

    constructor (cfg: Config)
      ensures this.cfg == cfg && codes == []
    {
      this.cfg := cfg;
      codes := [];
    }

    method RequestOtp(phone: string, account: Option<Account>, secret: string, sent: bool, now: int)
      returns (outcome: Outcome)
      modifies this
      ensures (codes, outcome) == AfterRequest(cfg, old(codes), Request(phone, account, secret, sent, now))
    {
      if account.None? {
        return NoAccount;
      }
      if !account.value.active {
        return NotActive;
      }
      var recent := CountRecent(phone, now - HOUR);
      if recent >= cfg.maxPerHour {
        return TooMany;
      }
      if !sent {
        return NotSent;
      }
      outcome := Issued(|codes|);
      codes := Superseded(codes, phone, now);
      codes := codes + [Otp(phone, account.value.user, secret, now, now + cfg.expireSeconds, 0, None)];
    }

    method CountRecent(phone: string, from: int) returns (n: nat)
      ensures n == CountSince(codes, phone, from)
    {
      n := 0;
      for i := 0 to |codes|
        invariant n == CountSince(codes[..i], phone, from)
      {
        assert codes[..i + 1][..i] == codes[..i];
        if codes[i].phone == phone && codes[i].created >= from {
          n := n + 1;
        }
      }
      assert codes[..|codes|] == codes;
    }

    /** The newest unverified code of a number; among equally new ones any may come first. */
    method FindNewest(phone: string) returns (found: Option<nat>)
      ensures found.None? ==> forall i :: !Open(codes, phone, i)
      ensures found.Some? ==> Newest(codes, phone, found.value)
    {
      found := None;
      for i := 0 to |codes|
        invariant found.None? ==> forall j :: j < i ==> !Open(codes, phone, j)
        invariant found.Some? ==> Open(codes, phone, found.value)
        invariant found.Some? ==>
          forall j :: j < i && Open(codes, phone, j) ==> codes[j].created <= codes[found.value].created
      {
        if Open(codes, phone, i) && (found.None? || codes[i].created >= codes[found.value].created) {
          found := Some(i);
        }
      }
    }

    method VerifyOtpLogin(phone: string, guess: string, active: set<UserId>, now: int)
      returns (outcome: Outcome, ghost pick: nat)
      modifies this
      ensures (codes, outcome) == AfterVerify(cfg, old(codes), Verify(phone, guess, active, pick, now))
      ensures Newest(old(codes), phone, pick) || forall i :: !Open(old(codes), phone, i)
    {
      var found := FindNewest(phone);
      pick := if found.Some? then found.value else 0;
      if found.None? {
        return NoCode, pick;
      }
      var i := found.value;
      var otp := codes[i];
      if guess != otp.secret {
        otp := otp.(attempts := otp.attempts + 1);
        if otp.attempts >= cfg.maxAttempts {
          otp := otp.(expires := now);
        }
        codes := codes[i := otp];
        return Wrong(i), pick;
      }
      if otp.expires <= now {
        return Expired(i), pick;
      }
      if otp.user !in active {
        return OwnerInactive(i), pick;
      }
      codes := codes[i := otp.(verified := Some(now))];
      outcome := LoggedIn(i);
    }
  }

  // ---------------------------------------------------------------- runs

  function After(cfg: Config, events: seq<Event>): Codes {
    if events == [] then [] else Step(cfg, After(cfg, events[..|events| - 1]), events[|events| - 1]).0
  }

  function OutcomeOf(cfg: Config, events: seq<Event>, k: nat): Outcome
    requires k < |events|
  {
    Step(cfg, After(cfg, events[..k]), events[k]).1
  }

  /** The clock never goes back and each verification picks a newest unverified code, if there is one. */
  ghost predicate Legal(cfg: Config, events: seq<Event>) {
    forall k :: 0 <= k < |events| ==> LegalAt(cfg, events, k)
  }

  ghost predicate LegalAt(cfg: Config, events: seq<Event>, k: nat)
    requires k < |events|
  {
    && (k > 0 ==> events[k - 1].now <= events[k].now)
    && (events[k].Verify? ==>
          var codes := After(cfg, events[..k]);
          Newest(codes, events[k].phone, events[k].pick) || forall i :: !Open(codes, events[k].phone, i))
  }

  /** What one code keeps to at time `now`. */
  predicate CodeOk(cfg: Config, o: Otp, now: int) {
    && o.created <= now
    && (o.expires <= now || o.expires == o.created + cfg.expireSeconds)
    && (o.attempts > 0 && o.attempts >= cfg.maxAttempts ==> o.expires <= now && o.verified.None?)
  }

  predicate Dead(o: Otp, now: int) { o.verified.Some? || o.expires <= now }

  predicate Locked(cfg: Config, o: Otp) { o.attempts > 0 && o.attempts >= cfg.maxAttempts }

  /** A code without a later one for its number, and not locked, still has its whole lifetime. */
  ghost predicate LastKeepsExpiry(cfg: Config, codes: Codes) {
    forall i :: 0 <= i < |codes| && !Locked(cfg, codes[i]) && Last(codes, i) ==>
      codes[i].expires == codes[i].created + cfg.expireSeconds
  }

  /** No later code is for the same number. */
  ghost predicate Last(codes: Codes, i: nat)
    requires i < |codes|
  {
    forall j :: i < j < |codes| ==> codes[j].phone != codes[i].phone
  }

  ghost predicate Inv(cfg: Config, codes: Codes, now: int) {
    && (forall i :: 0 <= i < |codes| ==> CodeOk(cfg, codes[i], now))
    && (forall i, j :: 0 <= i < j < |codes| ==> codes[i].created <= codes[j].created)
    && (forall i, j :: 0 <= i < j < |codes| && codes[i].phone == codes[j].phone ==> Dead(codes[i], now))
  }

  lemma InvLater(cfg: Config, codes: Codes, now: int, later: int)
    requires Inv(cfg, codes, now) && now <= later
    ensures Inv(cfg, codes, later)
  {
  }

  lemma SupersedeKeeps(cfg: Config, codes: Codes, phone: string, now: int)
    requires Inv(cfg, codes, now)
    ensures Inv(cfg, Superseded(codes, phone, now), now)
    ensures forall o :: o in Superseded(codes, phone, now) && o.phone == phone ==> Dead(o, now)
  {
  }

  lemma AppendKeeps(cfg: Config, codes: Codes, o: Otp, now: int)
    requires Inv(cfg, codes, now) && forall p :: p in codes && p.phone == o.phone ==> Dead(p, now)
    requires CodeOk(cfg, o, now) && o.created == now
    ensures Inv(cfg, codes + [o], now)
  {
    CreatedPast(cfg, codes, now);
    assert forall i :: 0 <= i < |codes| ==> codes[i] in codes;
    hide CodeOk, Dead;
  }

  lemma CreatedPast(cfg: Config, codes: Codes, now: int)
    requires Inv(cfg, codes, now)
    ensures forall i :: 0 <= i < |codes| ==> codes[i].created <= now
  {
  }

  lemma RequestKeeps(cfg: Config, codes: Codes, e: Event)
    requires Inv(cfg, codes, e.now) && e.Request?
    ensures Inv(cfg, AfterRequest(cfg, codes, e).0, e.now)
  {
    SupersedeKeeps(cfg, codes, e.phone, e.now);
    if AfterRequest(cfg, codes, e).1.Issued? {
      var kept, o := Superseded(codes, e.phone, e.now), NewCode(cfg, e, e.account.value.user);
      assert AfterRequest(cfg, codes, e).0 == kept + [o];
      assert CodeOk(cfg, o, e.now);
      hide *;
      AppendKeeps(cfg, kept, o, e.now);
    }
    hide *;
  }

  lemma UpdateKeeps(cfg: Config, codes: Codes, i: nat, o: Otp, now: int)
    requires Inv(cfg, codes, now) && i < |codes|
    requires CodeOk(cfg, o, now) && o.phone == codes[i].phone && o.created == codes[i].created
    requires Dead(codes[i], now) ==> Dead(o, now)
    ensures Inv(cfg, codes[i := o], now)
  {
  }

  lemma VerifyKeeps(cfg: Config, codes: Codes, e: Event)
    requires Inv(cfg, codes, e.now) && e.Verify?
    ensures Inv(cfg, AfterVerify(cfg, codes, e).0, e.now)
  {
    var i := e.pick;
    if Open(codes, e.phone, i) {
      assert CodeOk(cfg, codes[i], e.now);
      if e.guess != codes[i].secret {
        UpdateKeeps(cfg, codes, i, Guessed(cfg, codes[i], e.now), e.now);
      } else if codes[i].expires > e.now && codes[i].user in e.active {
        UpdateKeeps(cfg, codes, i, codes[i].(verified := Some(e.now)), e.now);
      }
    }
    hide Inv;
  }

  lemma StepKeeps(cfg: Config, codes: Codes, e: Event)
    requires Inv(cfg, codes, e.now)
    ensures Inv(cfg, Step(cfg, codes, e).0, e.now)
  {
    match e
    case Request(_, _, _, _, _) => RequestKeeps(cfg, codes, e);
    case Verify(_, _, _, _, _) => VerifyKeeps(cfg, codes, e);
  }

  lemma LegalPrefix(cfg: Config, events: seq<Event>, n: nat)
    requires Legal(cfg, events) && n <= |events|
    ensures Legal(cfg, events[..n])
  {
    forall k | 0 <= k < n
      ensures LegalAt(cfg, events[..n], k)
    {
      assert LegalAt(cfg, events, k);
      assert events[..n][..k] == events[..k];
    }
  }

  lemma AfterStep(cfg: Config, events: seq<Event>, k: nat)
    requires k < |events|
    ensures After(cfg, events[..k + 1]) == Step(cfg, After(cfg, events[..k]), events[k]).0
  {
    assert events[..k + 1][..k] == events[..k];
  }

  /** The invariant holds after every legal run, at any time from its last event on. */
  lemma {:induction false} RunKeeps(cfg: Config, events: seq<Event>, now: int)
    requires Legal(cfg, events) && (events != [] ==> events[|events| - 1].now <= now)
    ensures Inv(cfg, After(cfg, events), now)
  {
    if events != [] {
      var n := |events| - 1;
      var front, e := events[..n], events[n];
      LegalPrefix(cfg, events, n);
      assert LegalAt(cfg, events, n);
      RunKeeps(cfg, front, e.now);
      StepKeeps(cfg, After(cfg, front), e);
      InvLater(cfg, After(cfg, events), e.now, now);
    }
    hide Inv, Step;
  }

  /** At any time at most one code of a number is both unverified and unexpired, and it is the newest. */
  lemma OneLiveCode(cfg: Config, events: seq<Event>, now: int, i: nat, j: nat)
    requires Legal(cfg, events) && (events != [] ==> events[|events| - 1].now <= now)
    requires i < j < |After(cfg, events)| && After(cfg, events)[i].phone == After(cfg, events)[j].phone
    ensures Dead(After(cfg, events)[i], now)
  {
    RunKeeps(cfg, events, now);
  }

  /**
   * Only the code issued last for the number logs in, only with the right guess, only within its
   * lifetime and only if it has not been locked by wrong guesses.
   */
  lemma OnlyNewestLogsIn(cfg: Config, events: seq<Event>, k: nat, i: nat)
    requires Legal(cfg, events) && k < |events| && OutcomeOf(cfg, events, k) == LoggedIn(i)
    ensures var codes, e := After(cfg, events[..k]), events[k];
      && e.Verify? && i < |codes| && codes[i].phone == e.phone && codes[i].secret == e.guess
      && codes[i].user in e.active
      && codes[i].created <= e.now < codes[i].created + cfg.expireSeconds
      && (forall j :: i < j < |codes| ==> codes[j].phone != e.phone)
      && (codes[i].attempts == 0 || codes[i].attempts < cfg.maxAttempts)
  {
    var e := events[k];
    LegalPrefix(cfg, events, k);
    assert LegalAt(cfg, events, k);
    RunKeeps(cfg, events[..k], e.now);
    assert CodeOk(cfg, After(cfg, events[..k])[i], e.now);
  }

  // ---------------------------------------------------------------- single use

  lemma VerifiedStep(cfg: Config, codes: Codes, e: Event, i: nat)
    requires i < |codes|
    ensures var next := Step(cfg, codes, e).0;
      i < |next| && (codes[i].verified.Some? ==> next[i].verified.Some?)
  {
  }

  lemma {:induction false} VerifiedStays(cfg: Config, events: seq<Event>, k: nat, n: nat, i: nat)
    requires k <= n <= |events| && i < |After(cfg, events[..k])| && After(cfg, events[..k])[i].verified.Some?
    ensures i < |After(cfg, events[..n])| && After(cfg, events[..n])[i].verified.Some?
    decreases n - k
  {
    if k < n {
      AfterStep(cfg, events, k);
      VerifiedStep(cfg, After(cfg, events[..k]), events[k], i);
      VerifiedStays(cfg, events, k + 1, n, i);
    }
    hide Step;
  }

  lemma LoginMarks(cfg: Config, codes: Codes, e: Event, i: nat)
    ensures var (next, outcome) := Step(cfg, codes, e);
      outcome == LoggedIn(i) ==> i < |codes| == |next| && codes[i].verified.None? && next[i].verified.Some?
  {
  }

  /** No code logs in twice. */
  lemma EachCodeLogsInOnce(cfg: Config, events: seq<Event>, j: nat, k: nat, i: nat)
    requires j < k < |events| && OutcomeOf(cfg, events, j) == LoggedIn(i)
    ensures OutcomeOf(cfg, events, k) != LoggedIn(i)
  {
    AfterStep(cfg, events, j);
    LoginMarks(cfg, After(cfg, events[..j]), events[j], i);
    LoginMarks(cfg, After(cfg, events[..k]), events[k], i);
    hide Step, After;
    VerifiedStays(cfg, events, j + 1, k, i);
  }

  // ---------------------------------------------------------------- lockout

  /** How many guesses at code `i` were wrong. */
  function Wrongs(cfg: Config, events: seq<Event>, i: nat): nat {
    if events == [] then 0
    else
      var n := |events| - 1;
      Wrongs(cfg, events[..n], i) + if OutcomeOf(cfg, events, n) == Wrong(i) then 1 else 0
  }

  lemma AttemptsStep(cfg: Config, codes: Codes, e: Event, i: nat)
    ensures var (next, outcome) := Step(cfg, codes, e);
      && |codes| <= |next|
      && (i < |codes| ==> next[i].attempts == codes[i].attempts + if outcome == Wrong(i) then 1 else 0)
      && (|codes| <= i < |next| ==> next[i].attempts == 0)
      && (|codes| <= i ==> outcome != Wrong(i))
  {
  }

  lemma {:induction false} AttemptsAreWrongs(cfg: Config, events: seq<Event>, i: nat)
    ensures var codes := After(cfg, events);
      Wrongs(cfg, events, i) == if i < |codes| then codes[i].attempts else 0
  {
    if events != [] {
      var n := |events| - 1;
      AttemptsAreWrongs(cfg, events[..n], i);
      AttemptsStep(cfg, After(cfg, events[..n]), events[n], i);
    }
    hide Step;
  }

  lemma SupersedeExpiry(cfg: Config, codes: Codes, o: Otp, now: int)
    requires LastKeepsExpiry(cfg, codes) && o.expires == o.created + cfg.expireSeconds
    ensures LastKeepsExpiry(cfg, Superseded(codes, o.phone, now) + [o])
  {
    var next := Superseded(codes, o.phone, now) + [o];
    forall i | 0 <= i < |next| && !Locked(cfg, next[i]) && Last(next, i)
      ensures next[i].expires == next[i].created + cfg.expireSeconds
    {
      if i < |codes| {
        assert next[|codes|] == o && next[i].phone == codes[i].phone;
        assert forall j :: i < j < |codes| ==> next[j].phone == codes[j].phone;
        assert Last(codes, i);
      }
    }
    hide Locked;
  }

  lemma GuessExpiry(cfg: Config, codes: Codes, i: nat, o: Otp)
    requires LastKeepsExpiry(cfg, codes) && i < |codes|
    requires o.phone == codes[i].phone && o.created == codes[i].created
    requires !Locked(cfg, o) ==> !Locked(cfg, codes[i]) && o.expires == codes[i].expires
    ensures LastKeepsExpiry(cfg, codes[i := o])
  {
    var next := codes[i := o];
    forall k | 0 <= k < |next| && !Locked(cfg, next[k]) && Last(next, k)
      ensures next[k].expires == next[k].created + cfg.expireSeconds
    {
      assert forall j :: 0 <= j < |codes| ==> next[j].phone == codes[j].phone;
      assert Last(codes, k);
    }
    hide Locked;
  }

  lemma StepKeepsExpiry(cfg: Config, codes: Codes, e: Event)
    requires LastKeepsExpiry(cfg, codes)
    ensures LastKeepsExpiry(cfg, Step(cfg, codes, e).0)
  {
    if e.Request? {
      if AfterRequest(cfg, codes, e).1.Issued? {
        SupersedeExpiry(cfg, codes, NewCode(cfg, e, e.account.value.user), e.now);
      }
    } else if Open(codes, e.phone, e.pick) {
      var o := codes[e.pick];
      if e.guess != o.secret {
        GuessExpiry(cfg, codes, e.pick, Guessed(cfg, o, e.now));
      } else {
        GuessExpiry(cfg, codes, e.pick, o.(verified := Some(e.now)));
      }
    }
    hide LastKeepsExpiry;
  }

  lemma {:induction false} RunKeepsExpiry(cfg: Config, events: seq<Event>)
    ensures LastKeepsExpiry(cfg, After(cfg, events))
  {
    if events != [] {
      RunKeepsExpiry(cfg, events[..|events| - 1]);
      StepKeepsExpiry(cfg, After(cfg, events[..|events| - 1]), events[|events| - 1]);
    }
    hide LastKeepsExpiry, Step;
  }

  /** The verification would log the code in: everything it asks of the code, the guess and the owner. */
  ghost predicate Admits(cfg: Config, events: seq<Event>, k: nat, i: nat)
    requires k < |events|
  {
    var codes, e := After(cfg, events[..k]), events[k];
    && e.Verify? && e.pick == i && i < |codes|
    && codes[i].phone == e.phone && codes[i].verified.None? && Last(codes, i)
    && codes[i].secret == e.guess
    && codes[i].created <= e.now < codes[i].created + cfg.expireSeconds
    && (Wrongs(cfg, events[..k], i) == 0 || Wrongs(cfg, events[..k], i) < cfg.maxAttempts)
    && codes[i].user in e.active
  }

  /**
   * A verification logs in exactly with the code issued last for the number and not used before, the
   * right guess, within its full lifetime, fewer wrong guesses than permitted, and an active owner.
   */
  lemma LogsInIff(cfg: Config, events: seq<Event>, k: nat, i: nat)
    requires Legal(cfg, events) && k < |events|
    ensures OutcomeOf(cfg, events, k) == LoggedIn(i) <==> Admits(cfg, events, k, i)
  {
    AttemptsAreWrongs(cfg, events[..k], i);
    LegalPrefix(cfg, events, k);
    assert LegalAt(cfg, events, k);
    hide Wrongs;
    if OutcomeOf(cfg, events, k) == LoggedIn(i) {
      OnlyNewestLogsIn(cfg, events, k, i);
    } else if Admits(cfg, events, k, i) {
      RunKeepsExpiry(cfg, events[..k]);
    }
    hide Legal;
  }

  predicate AllUsed(codes: Codes, phone: string) {
    forall i :: 0 <= i < |codes| && codes[i].phone == phone ==> codes[i].verified.Some?
  }

  /** The code is the only open one of its number that was created so late. */
  ghost predicate NewestAlone(codes: Codes, i: nat)
    requires i < |codes|
  {
    && codes[i].verified.None? && Last(codes, i)
    && forall j :: 0 <= j < i && codes[j].phone == codes[i].phone && codes[j].verified.None? ==>
         codes[j].created < codes[i].created
  }

  /** A code issued later than every other of its number is the one a verification looks at. */
  lemma NewestIsPicked(cfg: Config, events: seq<Event>, k: nat, i: nat)
    requires Legal(cfg, events) && k < |events| && events[k].Verify? && i < |After(cfg, events[..k])|
    requires After(cfg, events[..k])[i].phone == events[k].phone && NewestAlone(After(cfg, events[..k]), i)
    ensures events[k].pick == i
  {
    assert LegalAt(cfg, events, k);
    var codes, e := After(cfg, events[..k]), events[k];
    assert Open(codes, e.phone, i);
    hide Legal;
  }

  /**
   * The right guess at the newest open code of a number logs in, within the code's lifetime, after
   * fewer wrong guesses than permitted and with an active owner.
   */
  lemma RightGuessLogsIn(cfg: Config, events: seq<Event>, k: nat, i: nat)
    requires Legal(cfg, events) && k < |events| && events[k].Verify? && i < |After(cfg, events[..k])|
    requires After(cfg, events[..k])[i].phone == events[k].phone && NewestAlone(After(cfg, events[..k]), i)
    requires var o, e, wrongs := After(cfg, events[..k])[i], events[k], Wrongs(cfg, events[..k], i);
      && e.guess == o.secret && e.now < o.created + cfg.expireSeconds && o.user in e.active
      && (wrongs == 0 || wrongs < cfg.maxAttempts)
    ensures OutcomeOf(cfg, events, k) == LoggedIn(i)
  {
    NewestIsPicked(cfg, events, k, i);
    LegalPrefix(cfg, events, k);
    assert LegalAt(cfg, events, k);
    RunKeeps(cfg, events[..k], events[k].now);
    assert CodeOk(cfg, After(cfg, events[..k])[i], events[k].now);
    hide Legal, Wrongs;
    assert Admits(cfg, events, k, i);
    LogsInIff(cfg, events, k, i);
  }

  lemma NoneOpen(codes: Codes, phone: string)
    ensures (forall i :: !Open(codes, phone, i)) <==> AllUsed(codes, phone)
  {
    if forall i :: !Open(codes, phone, i) {
      forall i | 0 <= i < |codes| && codes[i].phone == phone
        ensures codes[i].verified.Some?
      {
        assert !Open(codes, phone, i);
      }
    }
  }

  /** The code a verification picks answers it: a wrong guess first, then its expiry, then its owner. */
  lemma RefusedIff(cfg: Config, codes: Codes, e: Event, i: nat)
    requires e.Verify? && e.pick == i && i < |codes| && codes[i].phone == e.phone && codes[i].verified.None?
    ensures var outcome := Step(cfg, codes, e).1;
      && (outcome == Wrong(i) <==> e.guess != codes[i].secret)
      && (outcome == Expired(i) <==> e.guess == codes[i].secret && codes[i].expires <= e.now)
      && (outcome == OwnerInactive(i) <==>
            e.guess == codes[i].secret && e.now < codes[i].expires && codes[i].user !in e.active)
      && (outcome == LoggedIn(i) <==>
            e.guess == codes[i].secret && e.now < codes[i].expires && codes[i].user in e.active)
  {
  }

  /** A verification finds no code exactly when every code of the number has been used. */
  lemma NoCodeIff(cfg: Config, codes: Codes, e: Event)
    requires e.Verify? && (Newest(codes, e.phone, e.pick) || forall i :: !Open(codes, e.phone, i))
    ensures Step(cfg, codes, e).1 == NoCode <==> AllUsed(codes, e.phone)
  {
    NoneOpen(codes, e.phone);
    if Newest(codes, e.phone, e.pick) {
      assert Open(codes, e.phone, e.pick);
    } else {
      assert !Open(codes, e.phone, e.pick);
    }
  }

  /**
   * What a verification writes: a wrong guess one more attempt, the last permitted one also
   * the end of the code, a login its time; and nothing anywhere else.
   */
  lemma VerifyWrites(cfg: Config, codes: Codes, e: Event)
    requires e.Verify?
    ensures var (next, outcome) := Step(cfg, codes, e);
      && |next| == |codes|
      && forall i :: 0 <= i < |codes| ==>
           && next[i].phone == codes[i].phone && next[i].user == codes[i].user
           && next[i].secret == codes[i].secret && next[i].created == codes[i].created
           && next[i].attempts == codes[i].attempts + (if outcome == Wrong(i) then 1 else 0)
           && next[i].verified == (if outcome == LoggedIn(i) then Some(e.now) else codes[i].verified)
           && next[i].expires ==
                (if outcome == Wrong(i) && codes[i].attempts + 1 >= cfg.maxAttempts then e.now else codes[i].expires)
  {
  }

  /** After as many wrong guesses as permitted a code never logs in, whatever later guesses do to its expiry. */
  lemma LockedOutForGood(cfg: Config, events: seq<Event>, k: nat, i: nat)
    requires Legal(cfg, events) && k < |events| && Wrongs(cfg, events[..k], i) > 0
    requires Wrongs(cfg, events[..k], i) >= cfg.maxAttempts
    ensures OutcomeOf(cfg, events, k) != LoggedIn(i)
  {
    AttemptsAreWrongs(cfg, events[..k], i);
    hide Wrongs;
    if OutcomeOf(cfg, events, k) == LoggedIn(i) {
      OnlyNewestLogsIn(cfg, events, k, i);
      assert false;
    }
  }

  // ---------------------------------------------------------------- the sliding window

  lemma {:induction false} CountSame(a: Codes, b: Codes, phone: string, lo: int, hi: int)
    requires |a| == |b| && forall i :: 0 <= i < |a| ==> a[i].phone == b[i].phone && a[i].created == b[i].created
    ensures CountIn(a, phone, lo, hi) == CountIn(b, phone, lo, hi)
  {
    if a != [] {
      CountSame(a[..|a| - 1], b[..|a| - 1], phone, lo, hi);
    }
  }

  lemma {:induction false} CountMonotone(codes: Codes, phone: string, lo: int, hi: int, since: int)
    requires since <= lo
    ensures CountIn(codes, phone, lo, hi) <= CountSince(codes, phone, since)
  {
    if codes != [] {
      CountMonotone(codes[..|codes| - 1], phone, lo, hi, since);
    }
  }

  lemma CountAppend(codes: Codes, o: Otp, phone: string, lo: int, hi: int)
    ensures CountIn(codes + [o], phone, lo, hi)
      == CountIn(codes, phone, lo, hi) + if o.phone == phone && lo <= o.created <= hi then 1 else 0
  {
    assert (codes + [o])[..|codes|] == codes;
  }

  lemma WindowStep(cfg: Config, codes: Codes, e: Event, phone: string, t: int)
    requires CountIn(codes, phone, t, t + HOUR) <= cfg.maxPerHour
    ensures CountIn(Step(cfg, codes, e).0, phone, t, t + HOUR) <= cfg.maxPerHour
  {
    var (next, outcome) := Step(cfg, codes, e);
    if outcome.Issued? {
      var kept, o := Superseded(codes, e.phone, e.now), NewCode(cfg, e, e.account.value.user);
      assert next == kept + [o];
      CountSame(codes, kept, phone, t, t + HOUR);
      CountAppend(kept, o, phone, t, t + HOUR);
      if phone == e.phone && t <= e.now <= t + HOUR {
        CountMonotone(codes, phone, t, t + HOUR, e.now - HOUR);
      }
    } else {
      CountSame(codes, next, phone, t, t + HOUR);
    }
  }

  /** Wherever an hour starts, at most the permitted number of codes of a phone were created in it. */
  lemma {:induction false} HourlyLimit(cfg: Config, events: seq<Event>, phone: string, t: int)
    ensures CountIn(After(cfg, events), phone, t, t + HOUR) <= cfg.maxPerHour
  {
    if events != [] {
      HourlyLimit(cfg, events[..|events| - 1], phone, t);
      WindowStep(cfg, After(cfg, events[..|events| - 1]), events[|events| - 1], phone, t);
    }
    hide Step;
  }

  // ---------------------------------------------------------------- requests

  /** How many codes a run has issued to the number at or after `lo`. */
  function IssuedSince(cfg: Config, events: seq<Event>, phone: string, lo: int): nat {
    if events == [] then 0
    else
      var n := |events| - 1;
      IssuedSince(cfg, events[..n], phone, lo)
        + if OutcomeOf(cfg, events, n).Issued? && events[n].phone == phone && lo <= events[n].now then 1 else 0
  }

  lemma {:induction false} SinceSame(a: Codes, b: Codes, phone: string, lo: int)
    requires |a| == |b| && forall i :: 0 <= i < |a| ==> a[i].phone == b[i].phone && a[i].created == b[i].created
    ensures CountSince(a, phone, lo) == CountSince(b, phone, lo)
  {
    if a != [] {
      SinceSame(a[..|a| - 1], b[..|a| - 1], phone, lo);
    }
  }

  lemma SinceAppend(codes: Codes, o: Otp, phone: string, lo: int)
    ensures CountSince(codes + [o], phone, lo)
      == CountSince(codes, phone, lo) + if o.phone == phone && lo <= o.created then 1 else 0
  {
    assert (codes + [o])[..|codes|] == codes;
  }

  lemma SinceStep(cfg: Config, codes: Codes, e: Event, phone: string, lo: int)
    ensures var (next, outcome) := Step(cfg, codes, e);
      CountSince(next, phone, lo)
        == CountSince(codes, phone, lo) + if outcome.Issued? && e.phone == phone && lo <= e.now then 1 else 0
  {
    var (next, outcome) := Step(cfg, codes, e);
    if outcome.Issued? {
      var kept, o := Superseded(codes, e.phone, e.now), NewCode(cfg, e, e.account.value.user);
      assert next == kept + [o];
      SinceSame(codes, kept, phone, lo);
      SinceAppend(kept, o, phone, lo);
    } else {
      SinceSame(codes, next, phone, lo);
    }
  }

  lemma {:induction false} StoredAreIssued(cfg: Config, events: seq<Event>, phone: string, lo: int)
    ensures CountSince(After(cfg, events), phone, lo) == IssuedSince(cfg, events, phone, lo)
  {
    if events != [] {
      var n := |events| - 1;
      StoredAreIssued(cfg, events[..n], phone, lo);
      SinceStep(cfg, After(cfg, events[..n]), events[n], phone, lo);
    }
    hide Step;
  }

  lemma RequestAnswers(cfg: Config, codes: Codes, e: Event)
    requires e.Request?
    ensures var outcome, recent := Step(cfg, codes, e).1, CountSince(codes, e.phone, e.now - HOUR);
      && (outcome == NoAccount <==> e.account.None?)
      && (outcome == NotActive <==> e.account.Some? && !e.account.value.active)
      && (outcome == TooMany <==> e.account.Some? && e.account.value.active && recent >= cfg.maxPerHour)
      && (outcome == NotSent <==>
            e.account.Some? && e.account.value.active && recent < cfg.maxPerHour && !e.sent)
      && (outcome.Issued? <==> e.account.Some? && e.account.value.active && recent < cfg.maxPerHour && e.sent)
  {
    hide CountSince;
  }

  /**
   * A request is answered with a code exactly when the number belongs to an active account, fewer
   * codes than permitted were issued to it in the hour before, and the message goes out.
   */
  lemma IssuedIff(cfg: Config, events: seq<Event>, k: nat)
    requires k < |events| && events[k].Request?
    ensures var e, outcome := events[k], OutcomeOf(cfg, events, k);
      var recent := IssuedSince(cfg, events[..k], e.phone, e.now - HOUR);
      && (outcome == NoAccount <==> e.account.None?)
      && (outcome == NotActive <==> e.account.Some? && !e.account.value.active)
      && (outcome == TooMany <==> e.account.Some? && e.account.value.active && recent >= cfg.maxPerHour)
      && (outcome == NotSent <==>
            e.account.Some? && e.account.value.active && recent < cfg.maxPerHour && !e.sent)
      && (outcome.Issued? <==> e.account.Some? && e.account.value.active && recent < cfg.maxPerHour && e.sent)
  {
    StoredAreIssued(cfg, events[..k], events[k].phone, events[k].now - HOUR);
    RequestAnswers(cfg, After(cfg, events[..k]), events[k]);
    hide Step, CountSince, IssuedSince, After;
  }

  /**
   * What a request writes: if it is answered with a code, that code at the end, with its whole
   * lifetime, and the end of every older open code of the number; otherwise nothing.
   */
  lemma RequestWrites(cfg: Config, codes: Codes, e: Event)
    requires e.Request?
    ensures var (next, outcome) := Step(cfg, codes, e);
      && (!outcome.Issued? ==> next == codes)
      && (outcome.Issued? ==>
            && outcome == Issued(|codes|) && |next| == |codes| + 1 && e.account.Some?
            && next[|codes|] == Otp(e.phone, e.account.value.user, e.secret, e.now, e.now + cfg.expireSeconds, 0, None)
            && forall i :: 0 <= i < |codes| ==>
                 if codes[i].phone == e.phone && codes[i].verified.None? && codes[i].expires > e.now
                 then next[i] == codes[i].(expires := e.now) else next[i] == codes[i])
  {
  }
}
