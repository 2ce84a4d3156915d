/**
 * Registration by emailed code (UsersService): a pending record kept 130 s, a wrong-guess counter
 * kept 120 s and a request counter kept 120 s, all per email, each handler one atomic step.
 */
module Registration {
  import opened Base
  import opened TtlStore
  import Keys

  const OTP_EXPIRY_SECONDS: Lifetime := 120
  const PENDING_USER_EXPIRY_SECONDS: Lifetime := 130
  const OTP_AGE: int := MS * OTP_EXPIRY_SECONDS
  const MAX_GUESSES := 5
  const MAX_REQUESTS := 5

  datatype PendingUser = PendingUser(email: string, password: string, name: string, otp: string, createdAt: int)

  /** Everything the service keeps about one email. */
  datatype Account = Account(
    registered: bool,
    pending: Option<Entry<PendingUser>>,
    attempts: Option<Entry<int>>,
    requests: Option<Entry<int>>)

  datatype Verdict =
    | Success(data: PendingUser)
    | SessionExpired
    | ExpiredOtp
    | AttemptsExceeded
    | InvalidOtp(remaining: int)

  datatype Reply =
    | Initiated
    | EmailExists
    | PendingExists
    | TooManyRequests
    | FailedToSend
    | Resent
    | NoPendingRegistration
    | Completed
    | RegistrationFailed
    | Refused(verdict: Verdict)

  /** What the sign-up library did: created the user, answered without a user, or threw (before or after creating). */
  datatype SignUp = UserCreated | NoUser | Threw(created: bool)

  function SetFor<V>(now: int, seconds: Lifetime, v: V): Option<Entry<V>> {
    Some(Entry(v, Some(now + MS * seconds)))
  }

  // ----- The handlers on one account -----

  /** isRegistrationRateLimited: INCR, EXPIRE on 1, limited above 5. */
  function CountRequest(a: Account, now: int): Account {
    var e := Bump(a.requests, now);
    a.(requests := if e.value == 1 then SetFor(now, OTP_EXPIRY_SECONDS, 1) else Some(e))
  }

  predicate Limited(a: Account, now: int) {
    Bump(a.requests, now).value > MAX_REQUESTS
  }

  /** Both keys are overwritten, whatever they held. */
  function Issue(a: Account, now: int, user: PendingUser): Account {
    a.(pending := SetFor(now, PENDING_USER_EXPIRY_SECONDS, user),
       attempts := SetFor(now, OTP_EXPIRY_SECONDS, 0))
  }

  /** The record is stored before the mail is sent, and stays when sending fails. */
  function Register(a: Account, now: int, email: string, password: string, name: string, otp: string, mailSent: bool): (Account, Reply) {
    if a.registered then (a, EmailExists)
    else if Peek(a.pending, now).Some? then (a, PendingExists)
    else if Limited(a, now) then (CountRequest(a, now), TooManyRequests)
    else (Issue(CountRequest(a, now), now, PendingUser(email, password, name, otp, now)),
          if mailSent then Initiated else FailedToSend)
  }

  function VerifyOtp(a: Account, now: int, guess: string): (Account, Verdict) {
    match Peek(a.pending, now)
    case None => (a, SessionExpired)
    case Some(p) =>
      if now - p.createdAt > OTP_AGE then (a.(pending := None, attempts := None), ExpiredOtp)
      else if p.otp != guess then
        var seen := Peek(a.attempts, now);
        var count := if seen.Some? then seen.value + 1 else 1;
        var b := a.(attempts := SetFor(now, OTP_EXPIRY_SECONDS, count));
        if count >= MAX_GUESSES then (b.(pending := None), AttemptsExceeded)
        else (b, InvalidOtp(MAX_GUESSES - count))
      else (a.(attempts := None), Success(p))
  }

  function VerifyRegistration(a: Account, now: int, guess: string, signUp: SignUp): (Account, Reply) {
    var (b, verdict) := VerifyOtp(a, now, guess);
    if !verdict.Success? then (b, Refused(verdict))
    else match signUp
      case UserCreated => (b.(registered := true, pending := None, attempts := None), Completed)
      case NoUser => (b.(pending := None, attempts := None), Completed)
      case Threw(created) => (b.(registered := b.registered || created), RegistrationFailed)
  }

  /** The new code is stored only when the mail went out. */
  function Resend(a: Account, now: int, otp: string, mailSent: bool): (Account, Reply) {
    if Limited(a, now) then (CountRequest(a, now), TooManyRequests)
    else
      var b := CountRequest(a, now);
      match Peek(b.pending, now)
      case None => (b, NoPendingRegistration)
      case Some(p) =>
        if mailSent then (Issue(b, now, p.(otp := otp, createdAt := now)), Resent)
        else (b, NoPendingRegistration)
  }

  // ----- Runs, with the history the properties speak about -----

  /**
   * `issued`: the latest code and when it was stored. `details`: email, password and name of the
   * latest registration that was stored. `open`: it has not been used up, that is not
   * spent by five wrong guesses, completed or found expired. `wrong`: wrong guesses since the last
   * issue or right guess. The `life...` fields count within the current life of the request counter.
   */
  datatype History = History(
    issued: Option<(string, int)>,
    details: Option<(string, string, string)>,
    open: bool,
    wrong: nat,
    lifeIssued: nat,
    lifeWrong: nat,
    lifeRight: bool,
    lifeOpenedByIssue: bool)

  datatype State = State(now: int, account: Account, h: History)

  datatype Event =
    | DoRegister(email: string, password: string, name: string, otp: string, mailSent: bool)
    | DoVerify(guess: string, signUp: SignUp)
    | DoResend(newOtp: string, mailSent: bool)
    | Tick(elapsed: nat)

  const INIT := State(0, Account(false, None, None, None), History(None, None, false, 0, 0, 0, false, true))

  /** A request that begins a new life of the counter resets the per-life history. */
  function EnterLife(s: State, issues: bool): History {
    if Bump(s.account.requests, s.now).value == 1
    then s.h.(lifeIssued := 0, lifeWrong := 0, lifeRight := false, lifeOpenedByIssue := issues)
    else s.h
  }

  function NoteIssue(h: History, otp: string, now: int): History {
    h.(issued := Some((otp, now)), open := true, wrong := 0, lifeIssued := h.lifeIssued + 1)
  }

  function Step(s: State, e: Event): State {
    match e
    case Tick(d) => s.(now := s.now + d)
    case DoRegister(email, password, name, otp, sent) =>
      var (a, r) := Register(s.account, s.now, email, password, name, otp, sent);
      if r.EmailExists? || r.PendingExists? then s
      else if r.TooManyRequests? then s.(account := a, h := EnterLife(s, false))
      else s.(account := a, h := NoteIssue(EnterLife(s, true), otp, s.now).(details := Some((email, password, name))))
    case DoResend(otp, sent) =>
      var (a, r) := Resend(s.account, s.now, otp, sent);
      if r.Resent? then s.(account := a, h := NoteIssue(EnterLife(s, true), otp, s.now))
      else s.(account := a, h := EnterLife(s, false))
    case DoVerify(guess, signUp) =>
      var (a, r) := VerifyRegistration(s.account, s.now, guess, signUp);
      s.(account := a, h :=
        match r
        case Refused(InvalidOtp(_)) => s.h.(wrong := s.h.wrong + 1, lifeWrong := s.h.lifeWrong + 1)
        case Refused(AttemptsExceeded) =>
          s.h.(wrong := s.h.wrong + 1, lifeWrong := s.h.lifeWrong + 1, open := false)
        case Refused(ExpiredOtp) => s.h.(open := false)
        case Refused(SessionExpired) => s.h
        case Completed => s.h.(wrong := 0, lifeRight := true, open := false)
        case _ => s.h.(wrong := 0, lifeRight := true))
  }

  function RunFrom(s: State, es: seq<Event>): State {
    if es == [] then s else Step(RunFrom(s, es[..|es| - 1]), es[|es| - 1])
  }

  function Run(es: seq<Event>): State {
    RunFrom(INIT, es)
  }

  /** The latest code can still be accepted: not used up and at most 120 s old. */
  predicate Acceptable(s: State) {
    s.h.open && s.h.issued.Some? && s.now - s.h.issued.value.1 <= 120000
  }

  // ----- The invariant -----

  /** The pending record is the latest issue, and lives exactly 130 s. */
  ghost predicate PendingInv(s: State) {
    && (s.h.issued.Some? ==> s.h.issued.value.1 <= s.now)
    && (s.h.open <==> s.account.pending.Some?)
    && (s.account.pending.Some? ==>
          var e := s.account.pending.value;
          && s.h.issued == Some((e.value.otp, e.value.createdAt))
          && s.h.details == Some((e.value.email, e.value.password, e.value.name))
          && e.deadline == Some(e.value.createdAt + MS * PENDING_USER_EXPIRY_SECONDS))
  }

  /** The guess counter outlives the code it counts for; no counter means no wrong guess. */
  ghost predicate GuessInv(s: State) {
    s.account.pending.Some? ==>
      && s.h.wrong < MAX_GUESSES
      && match s.account.attempts
         case None => s.h.wrong == 0
         case Some(e) =>
           && e.value == s.h.wrong
           && e.deadline.Some?
           && s.account.pending.value.value.createdAt + OTP_AGE <= e.deadline.value
  }

  /** Requests so far in this life, present or not. */
  function Requests(a: Account): int {
    if a.requests.Some? then a.requests.value.value else 0
  }

  /**
   * Each code answers at most five wrong guesses. A life whose first request issued no code spends
   * one of its five requests on that, so the code carried into it costs no extra guesses in total.
   */
  ghost predicate LifeInv(s: State) {
    var h := s.h;
    var carried := if h.lifeOpenedByIssue then 0 else 1;
    && h.wrong <= MAX_GUESSES
    && (s.account.requests.Some? ==> s.account.requests.value.value >= 1 && s.account.requests.value.deadline.Some?)
    && h.lifeIssued + carried <= Min(Requests(s.account), MAX_REQUESTS)
    && (s.account.requests.Some? ==> h.lifeIssued + carried >= 1)
    && (!h.lifeRight ==>
          if h.lifeIssued + carried == 0 then h.lifeWrong == 0
          else h.lifeWrong <= MAX_GUESSES * (h.lifeIssued + carried - 1) + h.wrong)
    && (s.account.requests.None? ==> !s.h.open)
  }

  ghost predicate Inv(s: State) {
    PendingInv(s) && GuessInv(s) && LifeInv(s)
  }

  lemma RegisterKeepsInv(s: State, e: Event)
    requires Inv(s) && e.DoRegister?
    ensures Inv(Step(s, e))
  {
  }

  lemma ResendKeepsRecords(s: State, e: Event)
    requires Inv(s) && e.DoResend?
    ensures PendingInv(Step(s, e)) && GuessInv(Step(s, e))
  {
    hide LifeInv;
  }

  lemma ResendKeepsLife(s: State, e: Event)
    requires Inv(s) && e.DoResend?
    ensures LifeInv(Step(s, e))
  {
  }

  lemma ResendKeepsInv(s: State, e: Event)
    requires Inv(s) && e.DoResend?
    ensures Inv(Step(s, e))
  {
    hide Step, PendingInv, GuessInv, LifeInv;
    ResendKeepsRecords(s, e);
    ResendKeepsLife(s, e);
  }

  lemma VerifyKeepsRecords(s: State, e: Event)
    requires Inv(s) && e.DoVerify?
    ensures PendingInv(Step(s, e)) && GuessInv(Step(s, e))
  {
    hide LifeInv;
  }

  lemma VerifyKeepsLife(s: State, e: Event)
    requires Inv(s) && e.DoVerify?
    ensures LifeInv(Step(s, e))
  {
  }

  lemma VerifyKeepsInv(s: State, e: Event)
    requires Inv(s) && e.DoVerify?
    ensures Inv(Step(s, e))
  {
    hide Step, PendingInv, GuessInv, LifeInv;
    VerifyKeepsRecords(s, e);
    VerifyKeepsLife(s, e);
  }

  lemma {:induction false} RunKeepsInv(es: seq<Event>)
    ensures Inv(Run(es))
  {
    if es == [] {
    } else {
      var s, e := Run(es[..|es| - 1]), es[|es| - 1];
      RunKeepsInv(es[..|es| - 1]);
      match e
      case Tick(_) =>
      case DoRegister(_, _, _, _, _) => RegisterKeepsInv(s, e);
      case DoResend(_, _) => ResendKeepsInv(s, e);
      case DoVerify(_, _) => VerifyKeepsInv(s, e);
    }
  }

  // ----- Codes and guesses -----

  /**
   * verifyOtp accepts a guess exactly when it is the latest code issued to this email, that code is
   * at most 120 s old and has not been used up; it then hands over what the user registered with,
   * however often the code was resent.
   */
  lemma AcceptsExactlyTheLatestCode(es: seq<Event>, guess: string)
    ensures
      var s := Run(es);
      var verdict := VerifyOtp(s.account, s.now, guess).1;
      && (verdict.Success? <==> Acceptable(s) && s.h.issued.value.0 == guess)
      && (verdict.Success? ==> s.h.details == Some((verdict.data.email, verdict.data.password, verdict.data.name)))
  {
    RunKeepsInv(es);
  }

  /**
   * While the code is acceptable its guess counter has not expired and equals the wrong guesses
   * since the last issue or right guess, which number fewer than five.
   */
  lemma CounterIsExactWhileAcceptable(es: seq<Event>)
    requires Acceptable(Run(es))
    ensures
      var s := Run(es);
      && s.h.wrong < 5
      && Peek(s.account.attempts, s.now) == (if s.account.attempts.None? then None else Some(s.h.wrong))
      && (s.account.attempts.None? ==> s.h.wrong == 0)
  {
    RunKeepsInv(es);
  }

  /** The n-th wrong guess answers 5 - n remaining; the fifth removes the registration. */
  lemma FifthWrongGuessRemoves(es: seq<Event>, guess: string, signUp: SignUp)
    requires Acceptable(Run(es)) && Run(es).h.issued.value.0 != guess
    ensures
      var s := Run(es);
      var (a, r) := VerifyRegistration(s.account, s.now, guess, signUp);
      if s.h.wrong == 4
      then r == Refused(AttemptsExceeded) && a.pending.None?
      else r == Refused(InvalidOtp(4 - s.h.wrong)) && a.pending == s.account.pending
  {
    RunKeepsInv(es);
  }

  /** The tight case: exactly 120 s after the issue the counter is in its last millisecond, and still counts. */
  lemma CounterSurvivesTheLastMillisecond(es: seq<Event>)
    requires Acceptable(Run(es)) && Run(es).now == Run(es).h.issued.value.1 + 120000
    ensures Run(es).account.attempts.Some? ==> Peek(Run(es).account.attempts, Run(es).now).Some?
    ensures Peek(Run(es).account.pending, Run(es).now).Some?
  {
    RunKeepsInv(es);
  }

  /**
   * For an email that is not registered, a new registration is turned away exactly while the latest code
   * is not used up and at most 130 s old.
   */
  lemma PendingBlocksExactly130Seconds(es: seq<Event>, e: Event)
    requires e.DoRegister? && !Run(es).account.registered
    ensures
      var s := Run(es);
      Register(s.account, s.now, e.email, e.password, e.name, e.otp, e.mailSent).1 == PendingExists
      <==> PendingFor(s, 130)
  {
    RunKeepsInv(es);
  }

  /** So for the last ten of those seconds nobody can register, and no code would be accepted either. */
  lemma TenSecondsWithoutAWayIn(es: seq<Event>, e: Event, guess: string)
    requires e.DoRegister? && !Run(es).account.registered && Run(es).h.open && Run(es).h.issued.Some?
    requires 120000 < Run(es).now - Run(es).h.issued.value.1 <= 130000
    ensures
      var s := Run(es);
      && Register(s.account, s.now, e.email, e.password, e.name, e.otp, e.mailSent).1 == PendingExists
      && VerifyOtp(s.account, s.now, guess).1 == ExpiredOtp
  {
    RunKeepsInv(es);
  }

  // ----- Every reply, from the history alone -----

  /** The sign-up library created a user, whatever it answered. */
  predicate CreatesUser(signUp: SignUp) {
    match signUp
    case UserCreated => true
    case NoUser => false
    case Threw(created) => created
  }

  /** Some earlier guess was the latest code, acceptable at that moment, and its sign-up created the user. */
  predicate SignedUp(es: seq<Event>) {
    es != []
    && var s, e := Run(es[..|es| - 1]), es[|es| - 1];
       SignedUp(es[..|es| - 1])
       || (e.DoVerify? && Acceptable(s) && s.h.issued.value.0 == e.guess && CreatesUser(e.signUp))
  }

  /** An email is a user's exactly when it has signed up. */
  lemma {:induction false} RegisteredExactlyWhenSignedUp(es: seq<Event>)
    ensures Run(es).account.registered <==> SignedUp(es)
  {
    if es == [] {
    } else {
      var init, e := es[..|es| - 1], es[|es| - 1];
      RegisteredExactlyWhenSignedUp(init);
      if e.DoVerify? {
        AcceptsExactlyTheLatestCode(init, e.guess);
      }
    }
  }

  /** The latest code is not used up and at most that old. */
  predicate PendingFor(s: State, seconds: nat) {
    s.h.open && s.h.issued.Some? && s.now - s.h.issued.value.1 <= seconds * 1000
  }

  /** The event reaches the request counter: every resend, and a register that is not turned away before. */
  predicate CountsARequest(es: seq<Event>, e: Event) {
    e.DoResend? || (e.DoRegister? && !SignedUp(es) && !PendingFor(Run(es), 130))
  }

  /** When the latest life of the request counter began, 120 s at most before its last request, and its requests. */
  function LatestLife(es: seq<Event>): (Option<int>, nat) {
    if es == [] then (None, 0)
    else
      var init := es[..|es| - 1];
      var (start, count) := LatestLife(init);
      if !CountsARequest(init, es[|es| - 1]) then (start, count)
      else if start.Some? && Run(init).now <= start.value + 120000 then (start, count + 1)
      else (Some(Run(init).now), 1)
  }

  /** The requests of the life that is still running. */
  function RequestsSoFar(es: seq<Event>): nat {
    var (start, count) := LatestLife(es);
    if start.Some? && Run(es).now <= start.value + 120000 then count else 0
  }

  /** What an event does to the request counter. */
  lemma StepCounts(s: State, e: Event)
    requires Inv(s)
    ensures Step(s, e).account.requests
         == if e.DoResend? || (e.DoRegister? && !s.account.registered && !PendingFor(s, 130))
            then CountRequest(s.account, s.now).requests else s.account.requests
  {
  }

  lemma {:induction false} CounterFollowsRequests(es: seq<Event>)
    ensures
      var (start, count) := LatestLife(es);
      Run(es).account.requests == if start.Some? then Some(Entry(count, Some(start.value + 120000))) else None
  {
    if es == [] {
    } else {
      var init, e := es[..|es| - 1], es[|es| - 1];
      CounterFollowsRequests(init);
      RegisteredExactlyWhenSignedUp(init);
      RunKeepsInv(init);
      StepCounts(Run(init), e);
      hide Step, Inv, SignedUp, PendingFor;
    }
  }

  /**
   * What register answers, in every run: the email is a user's; or its latest code still blocks it; or the
   * life's five requests are spent; otherwise the code is stored, whether or not the mail goes out. The
   * first two change nothing, the third only the request counter.
   */
  lemma RegisterAnswersExactly(es: seq<Event>, email: string, password: string, name: string, otp: string, mailSent: bool)
    ensures
      var s := Run(es);
      var (a, r) := Register(s.account, s.now, email, password, name, otp, mailSent);
      if SignedUp(es) then r == EmailExists && a == s.account
      else if PendingFor(s, 130) then r == PendingExists && a == s.account
      else if RequestsSoFar(es) >= 5 then
        r == TooManyRequests && a.pending == s.account.pending && a.attempts == s.account.attempts && !a.registered
      else
        && r == (if mailSent then Initiated else FailedToSend) && !a.registered
        && a.pending == Some(Entry(PendingUser(email, password, name, otp, s.now), Some(s.now + 130000)))
        && a.attempts == Some(Entry(0, Some(s.now + 120000)))
  {
    RegisteredExactlyWhenSignedUp(es);
    LimitedExactlyWhenSpent(es);
    PendingExactlyWhenOpen(es);
    hide Run, SignedUp, PendingFor, RequestsSoFar, Limited;
  }

  /** The requests of a life are spent when five of them were made. */
  lemma LimitedExactlyWhenSpent(es: seq<Event>)
    ensures Limited(Run(es).account, Run(es).now) <==> RequestsSoFar(es) >= 5
  {
    CounterFollowsRequests(es);
    RunKeepsInv(es);
  }

  lemma PendingExactlyWhenOpen(es: seq<Event>)
    ensures Peek(Run(es).account.pending, Run(es).now).Some? <==> PendingFor(Run(es), 130)
  {
    RunKeepsInv(es);
  }

  /** What resend answers: counted first, then refused without a pending registration or without a mail. */
  lemma ResendAnswersExactly(es: seq<Event>, otp: string, mailSent: bool)
    ensures
      var s := Run(es);
      var (a, r) := Resend(s.account, s.now, otp, mailSent);
      && a.registered == s.account.registered
      && if RequestsSoFar(es) >= 5 || !PendingFor(s, 130) || !mailSent then
           && r == (if RequestsSoFar(es) >= 5 then TooManyRequests else NoPendingRegistration)
           && a.pending == s.account.pending && a.attempts == s.account.attempts
         else
           && s.h.details.Some?
           && var (email, password, name) := s.h.details.value;
           && r == Resent
           && a.pending == Some(Entry(PendingUser(email, password, name, otp, s.now), Some(s.now + 130000)))
           && a.attempts == Some(Entry(0, Some(s.now + 120000)))
  {
    CounterFollowsRequests(es);
    RunKeepsInv(es);
  }

  /**
   * What verify answers. A right guess uses up the guess counter at once, the pending record only when
   * sign-up does not throw; so a guess can be repeated after a failed sign-up.
   */
  lemma VerifyAnswersExactly(es: seq<Event>, guess: string, signUp: SignUp)
    ensures
      var s := Run(es);
      var (a, r) := VerifyRegistration(s.account, s.now, guess, signUp);
      && a.requests == s.account.requests
      && if !PendingFor(s, 130) then r == Refused(SessionExpired) && a == s.account
         else if !PendingFor(s, 120) then
           r == Refused(ExpiredOtp) && a.pending.None? && a.attempts.None? && a.registered == s.account.registered
         else if s.h.issued.value.0 != guess then
           && a.registered == s.account.registered
           && if s.h.wrong >= 4 then r == Refused(AttemptsExceeded) && a.pending.None?
              else r == Refused(InvalidOtp(4 - s.h.wrong)) && a.pending == s.account.pending
                   && a.attempts == Some(Entry(s.h.wrong + 1, Some(s.now + 120000)))
         else
           && a.attempts.None? && (a.registered <==> s.account.registered || CreatesUser(signUp))
           && if signUp.Threw? then r == RegistrationFailed && a.pending == s.account.pending
              else r == Completed && a.pending.None?
  {
    RunKeepsInv(es);
  }

  // ----- Bounds per life of the request counter -----

  /**
   * In one life of the request counter at most 5 codes are issued, and as long as no guess was right
   * at most 25 wrong guesses reach the comparison, the code carried into that life included.
   */
  lemma LifeBounds(es: seq<Event>)
    ensures Run(es).h.lifeIssued <= 5
    ensures !Run(es).h.lifeRight ==> Run(es).h.lifeWrong <= 25
  {
    RunKeepsInv(es);
  }

  /** One registration refused five times, and the code is gone: six handler calls. */
  function Round(email: string): seq<Event> {
    [DoRegister(email, "p", "n", "a", true)] + Guesses(MAX_GUESSES)
  }

  function Guesses(n: nat): seq<Event> {
    if n == 0 then [] else Guesses(n - 1) + [DoVerify("b", NoUser)]
  }

  function Rounds(email: string, n: nat): seq<Event> {
    if n == 0 then [] else Rounds(email, n - 1) + Round(email)
  }

  lemma {:induction false} RunAppend(s: State, a: seq<Event>, b: seq<Event>)
    ensures RunFrom(s, a + b) == RunFrom(RunFrom(s, a), b)
    decreases |b|
  {
    if b == [] {
      assert a + b == a;
    } else {
      assert (a + b)[..|a + b| - 1] == a + b[..|b| - 1];
      RunAppend(s, a, b[..|b| - 1]);
    }
  }

  ghost predicate AfterRounds(s: State, n: nat) {
    && s.now == 0 && !s.account.registered && s.account.pending.None?
    && Requests(s.account) == n
    && (n > 0 ==> s.account.requests == Some(Entry(n, Some(OTP_AGE))))
    && s.h.lifeWrong == MAX_GUESSES * n && !s.h.lifeRight && s.h.lifeIssued == n
  }

  /** After the registration and g wrong guesses. */
  ghost predicate MidRound(s: State, n: nat, g: nat) {
    && s.now == 0 && !s.account.registered
    && s.account.pending.Some? && Peek(s.account.pending, 0).Some?
    && s.account.pending.value.value.otp == "a" && s.account.pending.value.value.createdAt == 0
    && s.account.requests == Some(Entry(n, Some(OTP_AGE)))
    && Peek(s.account.attempts, 0) == Some(g)
    && s.h.lifeWrong == MAX_GUESSES * (n - 1) + g && !s.h.lifeRight && s.h.lifeIssued == n
  }

  lemma GuessOnce(s: State, n: nat, g: nat)
    requires n > 0 && MidRound(s, n, g) && g < MAX_GUESSES
    ensures
      var t := Step(s, DoVerify("b", NoUser));
      if g + 1 < MAX_GUESSES then MidRound(t, n, g + 1) else AfterRounds(t, n)
  {
  }

  lemma {:induction false} GuessWrongly(s: State, n: nat, g: nat)
    requires n > 0 && MidRound(s, n, 0) && g <= MAX_GUESSES
    ensures if g < MAX_GUESSES then MidRound(RunFrom(s, Guesses(g)), n, g) else AfterRounds(RunFrom(s, Guesses(g)), n)
  {
    hide Step, MidRound, AfterRounds;
    if g == 0 {
    } else {
      GuessWrongly(s, n, g - 1);
      var before := Guesses(g - 1);
      assert Guesses(g) == before + [DoVerify("b", NoUser)] && Guesses(g)[..|Guesses(g)| - 1] == before;
      assert RunFrom(s, Guesses(g)) == Step(RunFrom(s, before), DoVerify("b", NoUser));
      GuessOnce(RunFrom(s, before), n, g - 1);
    }
  }

  lemma BeginRound(s: State, n: nat, email: string)
    requires n < MAX_REQUESTS && AfterRounds(s, n)
    ensures MidRound(Step(s, DoRegister(email, "p", "n", "a", true)), n + 1, 0)
  {
  }

  lemma {:induction false} RunRounds(email: string, n: nat)
    requires n <= MAX_REQUESTS
    ensures AfterRounds(Run(Rounds(email, n)), n)
  {
    if n == 0 {
    } else {
      RunRounds(email, n - 1);
      var s := Run(Rounds(email, n - 1));
      var e := DoRegister(email, "p", "n", "a", true);
      RunAppend(INIT, Rounds(email, n - 1), Round(email));
      RunAppend(s, [e], Guesses(MAX_GUESSES));
      assert [e][..0] == [];
      BeginRound(s, n - 1, email);
      hide Step, MidRound, AfterRounds, Guesses;
      assert RunFrom(s, [e]) == Step(s, e);
      GuessWrongly(Step(s, e), n, MAX_GUESSES);
    }
  }

  /** Both bounds are attained: five registrations, each refused five times. */
  lemma LifeBoundsAreTight(email: string)
    ensures
      var s := Run(Rounds(email, MAX_REQUESTS));
      s.h.lifeIssued == 5 && s.h.lifeWrong == 25 && !s.h.lifeRight
  {
    RunRounds(email, MAX_REQUESTS);
  }

  // ----- The service over the store's keys -----

  function UserKey(email: string): string {
    Keys.Key(Keys.RegistrationUser, email)
  }

  function AttemptsKey(email: string): string {
    Keys.Key(Keys.OtpAttempts, email)
  }

  function RequestsKey(email: string): string {
    Keys.Key(Keys.RegistrationRate, email)
  }

  /** No two emails share a key, and the two counters of an email are different keys. */
  lemma EmailHasItsOwnKeys(email: string)
    ensures forall e :: e != email ==> UserKey(e) != UserKey(email)
    ensures forall e :: e != email ==> AttemptsKey(e) != AttemptsKey(email)
    ensures forall e :: e != email ==> RequestsKey(e) != RequestsKey(email)
    ensures forall e :: AttemptsKey(e) != RequestsKey(email)
    ensures forall e :: RequestsKey(e) != AttemptsKey(email)
  {
    forall e: string
      ensures e != email ==> UserKey(e) != UserKey(email)
      ensures e != email ==> AttemptsKey(e) != AttemptsKey(email)
      ensures e != email ==> RequestsKey(e) != RequestsKey(email)
      ensures AttemptsKey(e) != RequestsKey(email) && RequestsKey(e) != AttemptsKey(email)
    {
      Keys.KeysNeverCollide(Keys.RegistrationUser, e, Keys.RegistrationUser, email);
      Keys.KeysNeverCollide(Keys.OtpAttempts, e, Keys.OtpAttempts, email);
      Keys.KeysNeverCollide(Keys.RegistrationRate, e, Keys.RegistrationRate, email);
      Keys.KeysNeverCollide(Keys.OtpAttempts, e, Keys.RegistrationRate, email);
      Keys.KeysNeverCollide(Keys.RegistrationRate, e, Keys.OtpAttempts, email);
    }
  }

  /** The part of the tables and stores that concerns one email. */
  function AccountOf(users: set<string>, pending: Store<PendingUser>, counters: Store<int>, email: string): Account {
    Account(email in users, Slot(pending, UserKey(email)), Slot(counters, AttemptsKey(email)), Slot(counters, RequestsKey(email)))
  }

  class UsersService {
    var users: set<string>
    const pending: RedisService<PendingUser>
    const counters: RedisService<int>

    constructor (pending: RedisService<PendingUser>, counters: RedisService<int>)
      ensures this.pending == pending && this.counters == counters && users == {}
    {
      users := {};
      this.pending := pending;
      this.counters := counters;
    }

    ghost function View(email: string): Account
      reads this, pending, counters
    {
      AccountOf(users, pending.entries, counters.entries, email)
    }

    method IsRegistrationRateLimited(now: int, email: string) returns (limited: bool)
      modifies counters
      ensures limited == Limited(old(View(email)), now)
      ensures limited <==> View(email).requests.Some? && View(email).requests.value.value > 5
      ensures View(email) == CountRequest(old(View(email)), now)
      ensures forall e :: e != email ==> View(e) == old(View(e))
    {
      EmailHasItsOwnKeys(email);
      var count := IncrKey(counters, now, RequestsKey(email));
      if count == 1 {
        counters.ExpireKey(now, RequestsKey(email), OTP_EXPIRY_SECONDS);
      }
      limited := count > MAX_REQUESTS;
    }

    method StoreCode(now: int, email: string, user: PendingUser)
      modifies pending, counters
      ensures View(email) == Issue(old(View(email)), now, user)
      ensures forall e :: e != email ==> View(e) == old(View(e))
    {
      EmailHasItsOwnKeys(email);
      pending.SetexKey(now, UserKey(email), PENDING_USER_EXPIRY_SECONDS, user);
      counters.SetexKey(now, AttemptsKey(email), OTP_EXPIRY_SECONDS, 0);
    }

    /** register; what it answers over runs is RegisterAnswersExactly. */
    method RegisterUser(now: int, email: string, password: string, name: string, otp: string, mailSent: bool)
      returns (r: Reply)
      modifies pending, counters
      ensures (View(email), r) == Register(old(View(email)), now, email, password, name, otp, mailSent)
      ensures r == EmailExists <==> email in users
      ensures r == EmailExists || r == PendingExists ==> View(email) == old(View(email))
      ensures forall e :: e != email ==> View(e) == old(View(e))
    {
      if email in users {
        return EmailExists;
      }
      var existing := pending.GetKey(now, UserKey(email));
      if existing.Some? {
        return PendingExists;
      }
      var limited := IsRegistrationRateLimited(now, email);
      if limited {
        return TooManyRequests;
      }
      StoreCode(now, email, PendingUser(email, password, name, otp, now));
      r := if mailSent then Initiated else FailedToSend;
    }

    method DeletePendingUser(email: string)
      modifies pending, counters
      ensures View(email) == old(View(email)).(pending := None, attempts := None)
      ensures forall e :: e != email ==> View(e) == old(View(e))
    {
      EmailHasItsOwnKeys(email);
      pending.DelKey(UserKey(email));
      counters.DelKey(AttemptsKey(email));
    }

    method CheckOtp(now: int, email: string, guess: string) returns (v: Verdict)
      modifies pending, counters
      ensures (View(email), v) == VerifyOtp(old(View(email)), now, guess)
      ensures forall e :: e != email ==> View(e) == old(View(e))
    {
      EmailHasItsOwnKeys(email);
      var stored := pending.GetKey(now, UserKey(email));
      if stored.None? {
        return SessionExpired;
      }
      if now - stored.value.createdAt > OTP_EXPIRY_SECONDS * MS {
        DeletePendingUser(email);
        return ExpiredOtp;
      }
      if stored.value.otp != guess {
        var attempts := counters.GetKey(now, AttemptsKey(email));
        var count := if attempts.Some? then attempts.value + 1 else 1;
        counters.SetexKey(now, AttemptsKey(email), OTP_EXPIRY_SECONDS, count);
        if count >= MAX_GUESSES {
          pending.DelKey(UserKey(email));
          return AttemptsExceeded;
        }
        return InvalidOtp(MAX_GUESSES - count);
      }
      counters.DelKey(AttemptsKey(email));
      return Success(stored.value);
    }

    method VerifyUser(now: int, email: string, guess: string, signUp: SignUp) returns (r: Reply)
      modifies this`users, pending, counters
      ensures (View(email), r) == VerifyRegistration(old(View(email)), now, guess, signUp)
      ensures forall e :: e != email ==> View(e) == old(View(e))
    {
      var v := CheckOtp(now, email, guess);
      if !v.Success? {
        return Refused(v);
      }
      if signUp == UserCreated || signUp == Threw(true) {
        users := users + {email};
      }
      if signUp.Threw? {
        return RegistrationFailed;
      }
      DeletePendingUser(email);
      return Completed;
    }

    method ResendCode(now: int, email: string, otp: string, mailSent: bool) returns (r: Reply)
      modifies pending, counters
      ensures (View(email), r) == Resend(old(View(email)), now, otp, mailSent)
      ensures forall e :: e != email ==> View(e) == old(View(e))
    {
      var limited := IsRegistrationRateLimited(now, email);
      if limited {
        return TooManyRequests;
      }
      var stored := pending.GetKey(now, UserKey(email));
      if stored.None? || !mailSent {
        return NoPendingRegistration;
      }
      StoreCode(now, email, stored.value.(otp := otp, createdAt := now));
      return Resent;
    }
  }
}
