/** The client-side cheating log: its record shape, the provider's merge and
    reset rules, and the provider itself, which holds the one mutable log of
    an exam page (frontend/src/context/CheatingLogContext.jsx). */
module CheatingLog {
  import opened Common

  /** The five counters of a log; all but FocusLost are raised by the detector. */
  datatype Counter = NoFace | MultipleFace | CellPhone | ProhibitedObject | FocusLost

  /** The four violation types the detector reports. */
  type ViolationType = c: Counter | c != FocusLost witness NoFace

  const AllCounters: set<Counter> := {NoFace, MultipleFace, CellPhone, ProhibitedObject, FocusLost}

  lemma AllCountersComplete()
    ensures forall c: Counter :: c in AllCounters
  {
    forall c: Counter
      ensures c in AllCounters
    {
      match c
      case NoFace =>
      case MultipleFace =>
      case CellPhone =>
      case ProhibitedObject =>
      case FocusLost =>
    }
  }

  /** Evidence of one violation: the uploaded image's URL, its type and when it was taken. */
  datatype Screenshot = Screenshot(url: string, kind: ViolationType, detectedAt: int)

  /** The signed-in user as the client's auth state holds it. */
  datatype UserInfo = UserInfo(name: string, email: string, role: string)

  /** A log record as the client passes it around. A counter that is absent
      from `counts` is `undefined` in the source; an absent field is `None`. */
  datatype Log = Log(
    counts: map<Counter, int>,
    examId: Option<string>,
    username: Option<string>,
    email: Option<string>,
    screenshots: Option<seq<Screenshot>>)

  /** JavaScript truthiness of a count: present and non-zero. */
  predicate Truthy(log: Log, c: Counter) {
    c in log.counts && log.counts[c] != 0
  }

  /** `parseInt(x) || 0` and `x || 0` on a count: its value, or 0 when absent. */
  function CountOf(log: Log, c: Counter): (n: int)
    ensures Truthy(log, c) ==> n == log.counts[c]
    ensures !Truthy(log, c) ==> n == 0
  {
    if c in log.counts then log.counts[c] else 0
  }

  /** `log.screenshots || []`. */
  function ShotsOf(log: Log): seq<Screenshot> {
    if log.screenshots.Some? then log.screenshots.value else []
  }

  /** Number of screenshots of one violation type. */
  function ShotsOfKind(shots: seq<Screenshot>, t: ViolationType): nat {
    if shots == [] then 0
    else ShotsOfKind(shots[..|shots| - 1], t) + (if shots[|shots| - 1].kind == t then 1 else 0)
  }

  lemma ShotsOfKindAppend(shots: seq<Screenshot>, s: Screenshot, t: ViolationType)
    ensures ShotsOfKind(shots + [s], t) == ShotsOfKind(shots, t) + (if s.kind == t then 1 else 0)
  {
    assert (shots + [s])[..|shots|] == shots;
  }

  /** What the monitoring code keeps true of the provider's log: no count is
      negative, and there is never more evidence of a type than counted
      violations of that type. */
  ghost predicate LogInvariant(log: Log) {
    && (forall c :: CountOf(log, c) >= 0)
    && (forall t: ViolationType :: ShotsOfKind(ShotsOf(log), t) <= CountOf(log, t))
  }

  /** The log the provider starts with: all five counts 0 and an empty examId. */
  function InitialLog(user: Option<UserInfo>): (r: Log)
    ensures forall c :: c in r.counts && r.counts[c] == 0
    ensures r.examId == Some("")
    ensures r.username == Some(if user.Some? then user.value.name else "")
    ensures r.email == Some(if user.Some? then user.value.email else "")
    ensures r.screenshots == None
    ensures LogInvariant(r)
  {
    AllCountersComplete();
    Log(map c | c in AllCounters :: 0, Some(""),
        Some(if user.Some? then OrElse(user.value.name, "") else ""),
        Some(if user.Some? then OrElse(user.value.email, "") else ""),
        None)
  }

  /** The effect run when userInfo changes: only username and email are replaced. */
  function WithUser(log: Log, user: UserInfo): (r: Log)
    ensures r.counts == log.counts && r.examId == log.examId && r.screenshots == log.screenshots
    ensures r.username == Some(user.name) && r.email == Some(user.email)
  {
    log.(username := Some(user.name), email := Some(user.email))
  }

  /** The count kept by a merge: the update's if truthy, else the previous one
      if truthy, else 0. */
  function MergedCount(prev: Log, upd: Log, c: Counter): int {
    if Truthy(upd, c) then upd.counts[c] else if Truthy(prev, c) then prev.counts[c] else 0
  }

  /** `{...prev, ...newLog}` on one field: the update's value when it has the field. */
  function Pick<T>(upd: Option<T>, prev: Option<T>): Option<T> {
    if upd.Some? then upd else prev
  }

  /** `updateCheatingLog`: the update's fields win when present, and each count
      becomes `Number(new.x || prev.x || 0)`. */
  function Merge(prev: Log, upd: Log): (r: Log)
    ensures r.counts.Keys == AllCounters
    ensures forall c :: c in r.counts
    ensures forall c :: Truthy(upd, c) ==> r.counts[c] == upd.counts[c]
    ensures forall c :: !Truthy(upd, c) ==> r.counts[c] == CountOf(prev, c)
    ensures r.examId == (if upd.examId.Some? then upd.examId else prev.examId)
    ensures r.username == (if upd.username.Some? then upd.username else prev.username)
    ensures r.email == (if upd.email.Some? then upd.email else prev.email)
    ensures r.screenshots == (if upd.screenshots.Some? then upd.screenshots else prev.screenshots)
  {
    AllCountersComplete();
    Log(map c | c in AllCounters :: MergedCount(prev, upd, c),
        Pick(upd.examId, prev.examId),
        Pick(upd.username, prev.username),
        Pick(upd.email, prev.email),
        Pick(upd.screenshots, prev.screenshots))
  }

  /** A zero or missing count in an update never overwrites a non-zero one. */
  lemma MergeKeepsNonZero(prev: Log, upd: Log, c: Counter)
    requires Truthy(prev, c) && !Truthy(upd, c)
    ensures Merge(prev, upd).counts[c] == prev.counts[c]
  {
  }

  /** A non-zero count in an update wins even when it is smaller: the merge is
      neither a sum nor a maximum. */
  lemma MergeIsNeitherSumNorMax(prev: Log, upd: Log)
    requires prev.counts == map[CellPhone := 5] && upd.counts == map[CellPhone := 2]
    ensures Merge(prev, upd).counts[CellPhone] == 2
    ensures Merge(prev, upd).counts[CellPhone] < prev.counts[CellPhone]
    ensures Merge(prev, upd).counts[CellPhone] != prev.counts[CellPhone] + upd.counts[CellPhone]
  {
  }

  /** Applying the same update twice is the same as applying it once. */
  lemma {:induction false} MergeIdempotent(prev: Log, upd: Log)
    ensures Merge(Merge(prev, upd), upd) == Merge(prev, upd)
  {
    var once := Merge(prev, upd);
    var twice := Merge(once, upd);
    forall c | c in AllCounters
      ensures twice.counts[c] == once.counts[c]
    {
      if !Truthy(upd, c) {
        assert twice.counts[c] == CountOf(once, c);
      }
    }
    assert twice.counts == once.counts;
  }

  /** Merging an update with no fields at all (what spreading a function value
      gives) keeps every field and only coerces the counts. */
  lemma MergeEmpty(prev: Log)
    ensures var r := Merge(prev, Log(map[], None, None, None, None));
      && r.examId == prev.examId && r.username == prev.username && r.email == prev.email
      && r.screenshots == prev.screenshots
      && forall c :: r.counts[c] == CountOf(prev, c)
  {
  }

  /** `resetCheatingLog(examId)`: all counts 0, the given examId, the user's
      name and email or '', and no screenshots field. */
  function ResetLog(examId: string, user: Option<UserInfo>): (r: Log)
    ensures forall c :: c in r.counts && r.counts[c] == 0
    ensures r.examId == Some(examId) && r.screenshots == None
    ensures r.username == Some(if user.Some? then user.value.name else "")
    ensures r.email == Some(if user.Some? then user.value.email else "")
    ensures LogInvariant(r)
  {
    InitialLog(user).(examId := Some(examId))
  }

  /** The provider: one mutable log cell and the current user. */
  class Provider {
    var log: Log
    var userInfo: Option<UserInfo>

    constructor (user: Option<UserInfo>)
      ensures log == InitialLog(user) && userInfo == user
    {
      log := InitialLog(user);
      userInfo := user;
    }

    /** The userInfo effect: a new signed-in user replaces only username and email. */
    method SetUserInfo(user: Option<UserInfo>)
      modifies this
      ensures userInfo == user
      ensures log == if user.Some? then WithUser(old(log), user.value) else old(log)
    {
      userInfo := user;
      if user.Some? {
        log := WithUser(log, user.value);
      }
    }

    method Update(newLog: Log)
      modifies this`log
      ensures log == Merge(old(log), newLog)
    {
      log := Merge(log, newLog);
    }

    method Reset(examId: string)
      modifies this`log
      ensures log == ResetLog(examId, userInfo)
    {
      log := ResetLog(examId, userInfo);
    }
  }

  const OutsideProviderMessage := "useCheatingLog must be used within a CheatingLogProvider"

  /** `useCheatingLog`: fails outside a provider, else yields that provider. */
  function UseCheatingLog(context: Option<Provider>): (r: Result<Provider, string>)
    ensures r.Err? <==> context.None?
    ensures r.Err? ==> r.error == OutsideProviderMessage
    ensures r.Ok? ==> r.value == context.value
  {
    if context.None? then Err(OutsideProviderMessage) else Ok(context.value)
  }
}
