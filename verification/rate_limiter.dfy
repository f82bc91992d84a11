/** The login rate limiter of the authentication context
    (AuthContext.tsx): a counter of failed sign-ins and the time until
    which sign-in is locked, the three operations on them, and the order in
    which sign-in consults them. The clock is a parameter. */
module RateLimiter {
  import opened Wrappers
  import opened Text
  import Validation

  const MaxLoginAttempts: nat := 5
  const LockoutDurationMs: nat := 60000

  /** `Math.ceil((lockedUntil - now) / 1000)` while the lock holds: the
      smallest whole number of seconds covering the time left. */
  function SecondsLeft(lockedUntil: int, now: int): (r: int)
    requires lockedUntil > now
    ensures r >= 1
    ensures (r - 1) * 1000 < lockedUntil - now <= r * 1000
  {
    (lockedUntil - now + 999) / 1000
  }

  datatype LoginError = Locked(secondsLeft: int) | BadEmail(message: string) | BadCredentials {
    function Message(): string {
      match this
      case Locked(n) => "יותר מדי ניסיונות. נסה שוב בעוד " + IntToString(n) + " שניות"
      case BadEmail(m) => m
      case BadCredentials => "אימייל או סיסמה לא נכונים"
    }
  }

  /** The limiter's two fields as a value. */
  datatype Attempts = Attempts(count: nat, lockedUntil: int)

  const Fresh := Attempts(0, 0)

  /** What `checkRateLimit` decides and the state it leaves: a rejection
      while the lock holds, a reset once a lock has run out, and otherwise
      nothing. */
  function Check(s: Attempts, now: int): (r: (Outcome<LoginError>, Attempts))
    ensures r.0.Fail? <==> s.lockedUntil > now
    ensures r.0.Fail? ==> r.0.error.Locked? && r.0.error.secondsLeft >= 1 && r.1 == s
    ensures 0 < s.lockedUntil <= now ==> r.1 == Fresh
    ensures s.lockedUntil <= 0 && s.lockedUntil <= now ==> r.1 == s
  {
    if s.lockedUntil > now then (Fail(Locked(SecondsLeft(s.lockedUntil, now))), s)
    else if s.lockedUntil > 0 then (Pass, Fresh)
    else (Pass, s)
  }

  /** What `recordFailedAttempt` leaves: one more failure, and a lock of a
      minute from now once the count reaches the maximum. */
  function Failed(s: Attempts, now: int): (r: Attempts)
    ensures r.count == s.count + 1
    ensures r.count >= MaxLoginAttempts ==> r.lockedUntil == now + LockoutDurationMs
    ensures r.count < MaxLoginAttempts ==> r.lockedUntil == s.lockedUntil
  {
    var count := s.count + 1;
    Attempts(count, if count >= MaxLoginAttempts then now + LockoutDurationMs else s.lockedUntil)
  }

  /** The limiter's invariant on a non-negative clock: below the maximum
      there is no lock, at the maximum there is one, and the count never
      exceeds the maximum. */
  predicate Inv(s: Attempts) {
    && s.count <= MaxLoginAttempts
    && (s.count < MaxLoginAttempts ==> s.lockedUntil == 0)
    && (s.count == MaxLoginAttempts ==> s.lockedUntil > 0)
  }

  /** A check keeps the invariant, and when it lets the caller through
      there is no lock and the count is below the maximum. */
  lemma CheckKeepsInv(s: Attempts, now: int)
    requires Inv(s)
    ensures Inv(Check(s, now).1)
    ensures Check(s, now).0.Pass? ==> Check(s, now).1.lockedUntil == 0 && Check(s, now).1.count < MaxLoginAttempts
  {
  }

  /** A rejected check reports at most a minute when the lock was set no
      later than now. */
  lemma SecondsLeftAtMostAMinute(lockedAt: int, now: int)
    requires lockedAt <= now < lockedAt + LockoutDurationMs
    ensures 1 <= SecondsLeft(lockedAt + LockoutDurationMs, now) <= 60
  {
  }

  /** One sign-in with a well-formed e-mail and wrong credentials: the check
      first, and a recorded failure only when the check let it through. */
  function BadAttempt(s: Attempts, now: int): (r: Attempts)
    ensures Check(s, now).0.Fail? ==> r == s
    ensures Check(s, now).0.Pass? ==> r == Failed(Check(s, now).1, now)
  {
    var (verdict, s') := Check(s, now);
    if verdict.Fail? then s else Failed(s', now)
  }

  /** Bad attempts at the given times, in order. */
  function BadAttempts(s: Attempts, times: seq<int>): (r: Attempts)
    decreases |times|
  {
    if times == [] then s else BadAttempts(BadAttempt(s, times[0]), times[1..])
  }

  /** Bad sign-ins keep the invariant on a non-negative clock. */
  lemma BadAttemptKeepsInv(s: Attempts, now: int)
    requires Inv(s) && now >= 0
    ensures Inv(BadAttempt(s, now))
  {
    CheckKeepsInv(s, now);
  }

  /** Starting from no failures, bad sign-ins below the maximum only count:
      after k < 5 of them at non-negative times the state is (k, 0). */
  lemma {:induction false} FewFailuresNoLock(k: nat, times: seq<int>)
    requires k + |times| < MaxLoginAttempts
    requires forall i :: 0 <= i < |times| ==> times[i] >= 0
    ensures BadAttempts(Attempts(k, 0), times) == Attempts(k + |times|, 0)
    decreases |times|
  {
    if times != [] {
      assert BadAttempt(Attempts(k, 0), times[0]) == Attempts(k + 1, 0);
      FewFailuresNoLock(k + 1, times[1..]);
    }
  }

  /** Five bad sign-ins in a row from a fresh limiter, at non-negative
      times, lock it for exactly one minute from the fifth; any sign-in
      within that minute is rejected, leaves the state as it was and reports
      between 1 and 60 seconds; the first one after it resets the limiter. */
  lemma {:induction false} FiveFailuresLock(times: seq<int>, later: int)
    requires |times| == MaxLoginAttempts
    requires forall i :: 0 <= i < |times| ==> times[i] >= 0
    ensures BadAttempts(Fresh, times) == Attempts(MaxLoginAttempts, times[4] + LockoutDurationMs)
    ensures times[4] <= later < times[4] + LockoutDurationMs ==>
      var c := Check(BadAttempts(Fresh, times), later);
      c.0.Fail? && c.1 == BadAttempts(Fresh, times) && 1 <= c.0.error.secondsLeft <= 60
    ensures later >= times[4] + LockoutDurationMs ==>
      Check(BadAttempts(Fresh, times), later) == (Pass, Fresh)
  {
    FewFailuresNoLock(0, times[..4]);
    assert BadAttempts(Fresh, times[..4]) == Attempts(4, 0);
    BadAttemptsSplit(Fresh, times[..4], [times[4]]);
    assert times[..4] + [times[4]] == times;
    assert BadAttempts(Attempts(4, 0), [times[4]]) == BadAttempts(BadAttempt(Attempts(4, 0), times[4]), []);
    if times[4] <= later < times[4] + LockoutDurationMs {
      SecondsLeftAtMostAMinute(times[4], later);
    }
  }

  /** Attempts over two runs of times are the attempts over the first run,
      then over the second. */
  lemma {:induction false} BadAttemptsSplit(s: Attempts, xs: seq<int>, ys: seq<int>)
    ensures BadAttempts(s, xs + ys) == BadAttempts(BadAttempts(s, xs), ys)
    decreases |xs|
  {
    if xs != [] {
      assert (xs + ys)[1..] == xs[1..] + ys;
      BadAttemptsSplit(BadAttempt(s, xs[0]), xs[1..], ys);
    } else {
      assert xs + ys == ys;
    }
  }

  /** What the sign-in's credential checks conclude once the limiter has let
      it through. */
  datatype Verdict = MalformedEmail(message: string) | WrongCredentials | Accepted

  /** A demo user as stored: `passwordHash` may be empty. */
  datatype DemoUser = DemoUser(displayName: string, passwordHash: string, uid: string)

  /** The credential checks of `signIn`, in order: the e-mail's format, then
      either the demo table (keyed by the trimmed, lower-cased e-mail, with
      an empty hash never matching) or the remote sign-in. `verify` stands
      for `verifyPassword` and `remoteAccepts` for the remote sign-in with
      the trimmed e-mail. */
  function CredentialVerdict(
    hasFirebase: bool, email: string, password: string,
    users: map<string, DemoUser>, verify: (string, string) -> bool,
    remoteAccepts: (string, string) -> bool): (v: Verdict)
    ensures v.MalformedEmail? <==> Validation.ValidateEmail(email).Some?
    ensures v.MalformedEmail? ==> v.message == Validation.ValidateEmail(email).value
    ensures !hasFirebase ==>
      (v.Accepted? <==>
        && Validation.ValidateEmail(email).None?
        && var key := Lower(Trim(email));
           key in users && users[key].passwordHash != [] && verify(password, users[key].passwordHash))
    ensures hasFirebase ==>
      (v.Accepted? <==> Validation.ValidateEmail(email).None? && remoteAccepts(Trim(email), password))
  {
    var emailErr := Validation.ValidateEmail(email);
    if emailErr.Some? then MalformedEmail(emailErr.value)
    else if !hasFirebase then
      var key := Lower(Trim(email));
      if key !in users then WrongCredentials
      else
        var isValid := if users[key].passwordHash != [] then verify(password, users[key].passwordHash) else false;
        if !isValid then WrongCredentials else Accepted
    else if remoteAccepts(Trim(email), password) then Accepted
    else WrongCredentials
  }

  /** The outcome of `signIn` and the limiter state it leaves, given the
      verdict of the credential checks. */
  function SignInResult(s: Attempts, now: int, v: Verdict): (r: (Outcome<LoginError>, Attempts))
    ensures r.0 == Pass <==> s.lockedUntil <= now && v.Accepted?
    ensures r.0 == Pass ==> r.1 == Fresh
    ensures s.lockedUntil > now ==> r.1 == s
    ensures r.1.count > s.count ==> v.WrongCredentials? && r.1.count == Check(s, now).1.count + 1
  {
    var (checked, s') := Check(s, now);
    if checked.Fail? then (checked, s)
    else match v
      case MalformedEmail(m) => (Fail(BadEmail(m)), s')
      case WrongCredentials => (Fail(BadCredentials), Failed(s', now))
      case Accepted => (Pass, Fresh)
  }

  /** The limiter comes first: while locked, every sign-in is rejected with
      the lock message whatever the credentials, and counts nothing. */
  lemma LockedRejectsAll(s: Attempts, now: int, v: Verdict)
    requires s.lockedUntil > now
    ensures SignInResult(s, now, v) == (Fail(Locked(SecondsLeft(s.lockedUntil, now))), s)
  {
  }

  /** Once past the limiter, a malformed e-mail is rejected without
      recording a failure, wrong credentials record exactly one, and success
      clears the limiter. */
  lemma SignInRecords(s: Attempts, now: int, v: Verdict)
    requires s.lockedUntil <= now
    ensures v.MalformedEmail? ==> SignInResult(s, now, v).1.count == Check(s, now).1.count
    ensures v.WrongCredentials? ==> SignInResult(s, now, v) == (Fail(BadCredentials), BadAttempt(s, now))
    ensures v.Accepted? ==> SignInResult(s, now, v) == (Pass, Fresh)
  {
  }

  /** Every sign-in keeps the limiter's invariant on a non-negative clock. */
  lemma SignInKeepsInv(s: Attempts, now: int, v: Verdict)
    requires Inv(s) && now >= 0
    ensures Inv(SignInResult(s, now, v).1)
  {
    CheckKeepsInv(s, now);
  }

  /** The limiter as the context holds it: a record updated in place. */
  class LoginLimiter {
    var count: nat
    var lockedUntil: int

    function State(): Attempts
      reads this
    {
      Attempts(count, lockedUntil)
    }

    constructor ()
      ensures State() == Fresh
    {
      count := 0;
      lockedUntil := 0;
    }

    /** `checkRateLimit` with `Date.now()` as `now`. */
    method CheckRateLimit(now: int) returns (r: Outcome<LoginError>)
      modifies this
      ensures (r, State()) == Check(old(State()), now)
    {
      if lockedUntil > now {
        var secondsLeft := (lockedUntil - now + 999) / 1000;
        return Fail(Locked(secondsLeft));
      }
      if lockedUntil > 0 && lockedUntil <= now {
        count := 0;
        lockedUntil := 0;
      }
      return Pass;
    }

    /** `recordFailedAttempt` with `Date.now()` as `now`. */
    method RecordFailedAttempt(now: int)
      modifies this
      ensures State() == Failed(old(State()), now)
    {
      count := count + 1;
      if count >= MaxLoginAttempts {
        lockedUntil := now + LockoutDurationMs;
      }
    }

    /** `resetAttempts`. */
    method ResetAttempts()
      modifies this
      ensures State() == Fresh
    {
      count := 0;
      lockedUntil := 0;
    }

    /** `signIn` as far as the limiter sees it: the check, the e-mail's
        format, then the credentials, recording a failure or resetting. */
    method SignIn(
      hasFirebase: bool, email: string, password: string,
      users: map<string, DemoUser>, verify: (string, string) -> bool,
      remoteAccepts: (string, string) -> bool, now: int) returns (r: Outcome<LoginError>)
      modifies this
      ensures (r, State()) == SignInResult(old(State()), now,
        CredentialVerdict(hasFirebase, email, password, users, verify, remoteAccepts))
    {
      r := CheckRateLimit(now);
      if r.Fail? {
        return;
      }
      var emailErr := Validation.ValidateEmail(email);
      if emailErr.Some? {
        return Fail(BadEmail(emailErr.value));
      }
      if !hasFirebase {
        var key := Lower(Trim(email));
        if key !in users {
          RecordFailedAttempt(now);
          return Fail(BadCredentials);
        }
        var u := users[key];
        var isValid := if u.passwordHash != [] then verify(password, u.passwordHash) else false;
        if !isValid {
          RecordFailedAttempt(now);
          return Fail(BadCredentials);
        }
        ResetAttempts();
        return Pass;
      }
      if remoteAccepts(Trim(email), password) {
        ResetAttempts();
        return Pass;
      }
      RecordFailedAttempt(now);
      return Fail(BadCredentials);
    }
  }
}
