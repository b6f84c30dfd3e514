/** The durable guard that keeps the recovery from submitting the same credential twice
    (integrations/windows_terminal_recovery.py, integrations/windows_qmt_login.py). */
module LoginGuard {

  datatype Code = AttemptUnresolved | RejectedOrVerification

  // The state file; `Garbage` stands for anything `read` refuses.
  datatype StateFile = Absent | Attempt(revision: nat, code: Code) | Garbage

  datatype Window = LoggedIn | NoWindow | LoginRequired | OtherWindow

  // How `driver.login` goes: stopped before the guard is written, stopped between the guard and
  // the click, or clicked with one of three outcomes.
  datatype Login = StoppedEarly | StoppedLate | Accepted | Rejected | Unclear

  // Everything the driver answers during one recovery.
  datatype Answers = Answers(
    first: Window, afterStart: Window, prepared: bool, revision: nat, login: Login,
    confirmed: bool, bridgeBack: bool, confirmedAgain: bool)

  datatype Event = Submitted(revision: nat) | Authenticated

  datatype Outcome = Recovered | NotNeeded | Failed | Died

  // What outlives a process, and what has happened so far.
  datatype State = State(file: StateFile, log: seq<Event>)

  // Revisions submitted since an authenticated window was last seen.
  function OpenSubmits(log: seq<Event>): set<nat> {
    if log == [] then {}
    else match log[|log| - 1]
      case Authenticated => {}
      case Submitted(r) => OpenSubmits(log[..|log| - 1]) + {r}
  }

  predicate Guarded(log: seq<Event>) {
    log != [] ==>
      && Guarded(log[..|log| - 1])
      && (log[|log| - 1].Submitted? ==> log[|log| - 1].revision !in OpenSubmits(log[..|log| - 1]))
  }

  lemma {:induction false} StillOpen(log: seq<Event>, i: nat)
    requires i < |log| && log[i].Submitted?
    requires forall k | i < k < |log| :: log[k] != Authenticated
    ensures log[i].revision in OpenSubmits(log)
  {
    var front := log[..|log| - 1];
    if i < |log| - 1 {
      assert log[|log| - 1] != Authenticated;
      StillOpen(front, i);
    }
  }

  /** Two submissions of one credential revision have an authenticated window between them. */
  lemma {:induction false} GuardedMeans(log: seq<Event>, i: nat, j: nat)
    requires Guarded(log) && i < j < |log| && log[i].Submitted? && log[i] == log[j]
    ensures exists k | i < k < j :: log[k] == Authenticated
  {
    var front := log[..|log| - 1];
    if j < |log| - 1 {
      GuardedMeans(front, i, j);
      var k :| i < k < j && front[k] == Authenticated;
      assert log[k] == Authenticated;
    } else if forall k | i < k < j :: log[k] != Authenticated {
      StillOpen(front, i);
    }
  }

  lemma Appended(log: seq<Event>, e: Event)
    ensures OpenSubmits(log + [e]) == if e.Authenticated? then {} else OpenSubmits(log) + {e.revision}
    ensures Guarded(log + [e]) <==> Guarded(log) && (e.Submitted? ==> e.revision !in OpenSubmits(log))
  {
    assert (log + [e])[..|log|] == log;
  }

  /* ---------- the sections under the lock ---------- */

  // The recovery lock is let go between these; other processes may take it there. `life` is how
  // many durable effects a process still brings about before it dies.
  datatype Section =
    | Enter(answers: Answers, life: nat)
    | Confirm(confirmed: bool, life: nat)
    | Stop(seen: Window, life: nat)

  // What keeps a revision from being submitted.
  predicate Blocks(file: StateFile, revision: nat) {
    file.Garbage? || (file.Attempt? && file.revision == revision)
  }

  // An authenticated window was seen, and the guard is then withdrawn.
  function Seen(s: State, life: nat): State {
    State(if life == 0 then s.file else Absent, s.log + [Authenticated])
  }

  // `driver.login`: the guard, the click, the mark of a rejection.
  function Clicked(s: State, revision: nat, login: Login, life: nat): State {
    if login.StoppedEarly? || life == 0 then s
    else if login.StoppedLate? || life == 1 then s.(file := Attempt(revision, AttemptUnresolved))
    else State(Attempt(revision, if login.Rejected? && life > 2 then RejectedOrVerification else AttemptUnresolved),
               s.log + [Submitted(revision)])
  }

  function Current(a: Answers): Window {
    if a.first.NoWindow? then a.afterStart else a.first
  }

  // The recovery comes to the point of submitting.
  predicate Reaches(file: StateFile, a: Answers) {
    Current(a).LoginRequired? && a.prepared && !Blocks(file, a.revision)
  }

  function Entered(s: State, a: Answers, life: nat): State {
    if a.first.LoggedIn? then Seen(s, life)
    else if Current(a).LoggedIn? then (if a.confirmed then Seen(s, life) else s)
    else if !Reaches(s.file, a) then s
    else if a.login.Accepted? && a.confirmed && life >= 2 then Seen(Clicked(s, a.revision, a.login, 2), life - 2)
    else Clicked(s, a.revision, a.login, life)
  }

  // The first section ends with the guard withdrawn and the recovery going on.
  predicate GoesOn(s: State, a: Answers, life: nat) {
    && !a.first.LoggedIn? && a.confirmed
    && (if Current(a).LoggedIn? then life > 0 else Reaches(s.file, a) && a.login.Accepted? && life > 2)
  }

  function Done(s: State, section: Section): State {
    match section
    case Enter(a, life) => Entered(s, a, life)
    case Confirm(confirmed, life) => if confirmed then Seen(s, life) else s
    case Stop(seen, life) => if seen.LoggedIn? then Seen(s, life) else s
  }

  // A recovery's two sections, no other process taking the lock in between.
  function WholeSession(s: State, a: Answers, life: nat, later: nat): State {
    if GoesOn(s, a, life) && a.bridgeBack then Done(Entered(s, a, life), Confirm(a.confirmedAgain, later))
    else Entered(s, a, life)
  }

  // Sections in the order in which they had the lock.
  datatype Schedule = Nothing | Then(before: Schedule, last: Section)

  function Played(s: State, schedule: Schedule): State {
    match schedule
    case Nothing => s
    case Then(before, last) => Done(Played(s, before), last)
  }

  function InOrder(sections: seq<Section>): Schedule {
    if sections == [] then Nothing else Then(InOrder(sections[..|sections| - 1]), sections[|sections| - 1])
  }

  // The credential revision in force at each recovery, in order.
  function Revisions(schedule: Schedule): seq<nat> {
    match schedule
    case Nothing => []
    case Then(before, last) => Revisions(before) + if last.Enter? then [last.answers.revision] else []
  }

  /** A recovery submits exactly the revision in force, exactly when it finds the login window, is
      prepared, the guard neither names that revision nor is unreadable, and the driver lives to
      click. */
  lemma EnteredSubmits(s: State, a: Answers, life: nat)
    ensures var log := Entered(s, a, life).log;
      && s.log <= log && |log| <= |s.log| + 2
      && (forall r :: Submitted(r) in log[|s.log|..] <==>
            && r == a.revision && (a.first == LoginRequired || (a.first == NoWindow && a.afterStart == LoginRequired))
            && a.prepared && s.file != Garbage && !(s.file.Attempt? && s.file.revision == a.revision)
            && a.login in {Accepted, Rejected, Unclear} && life >= 2)
  {
    EnteredAdds(s, a, life);
  }

  // What a recovery adds to the history.
  function Adds(s: State, a: Answers, life: nat): seq<Event> {
    var clicks := Reaches(s.file, a) && a.login in {Accepted, Rejected, Unclear} && life >= 2;
    if a.first.LoggedIn? || (Current(a).LoggedIn? && a.confirmed) then [Authenticated]
    else if !clicks then []
    else if a.login.Accepted? && a.confirmed then [Submitted(a.revision), Authenticated]
    else [Submitted(a.revision)]
  }

  lemma EnteredAdds(s: State, a: Answers, life: nat)
    ensures Entered(s, a, life).log == s.log + Adds(s, a, life)
    ensures Entered(s, a, life).log[|s.log|..] == Adds(s, a, life)
  {
    assert [Submitted(a.revision)] + [Authenticated] == [Submitted(a.revision), Authenticated];
  }

  /** It sees a session only where the driver shows one, or confirms the one it has opened. */
  lemma EnteredSees(s: State, a: Answers, life: nat)
    ensures Authenticated in Entered(s, a, life).log[|s.log|..] <==>
      || a.first == LoggedIn
      || (a.first == NoWindow && a.afterStart == LoggedIn && a.confirmed)
      || (Submitted(a.revision) in Entered(s, a, life).log[|s.log|..] && a.login == Accepted && a.confirmed)
    ensures Authenticated in Entered(s, a, life).log[|s.log|..] ==>
      Entered(s, a, life).file in {Absent, s.file, Attempt(a.revision, AttemptUnresolved)}
  {
    EnteredAdds(s, a, life);
  }

  /* ---------- when the guard suffices ---------- */

  /** No revision comes back after another one. */
  predicate NeverReturns(revs: seq<nat>) {
    forall i, j, k :: 0 <= i < j < k < |revs| && revs[i] == revs[k] ==> revs[j] == revs[i]
  }

  // Open submissions are of past revisions, and the guard covers those that are still to come.
  predicate Covers(s: State, past: seq<nat>, future: seq<nat>) {
    Guarded(s.log) && forall r <- OpenSubmits(s.log) :: r in past && (r in future ==> Blocks(s.file, r))
  }

  lemma SeenCovers(s: State, life: nat, past: seq<nat>, future: seq<nat>)
    requires Guarded(s.log)
    ensures Covers(Seen(s, life), past, future)
  {
    Appended(s.log, Authenticated);
  }

  lemma PastNeverReturns(past: seq<nat>, v: nat, future: seq<nat>, r: nat)
    requires NeverReturns(past + [v] + future) && r in past && r in future
    ensures r == v
  {
    var i :| 0 <= i < |past| && past[i] == r;
    var k :| 0 <= k < |future| && future[k] == r;
    var all := past + [v] + future;
    assert all[i] == r && all[|past|] == v && all[|past| + 1 + k] == r;
  }

  lemma ClickCovers(s: State, v: nat, login: Login, life: nat, past: seq<nat>, future: seq<nat>)
    requires Covers(s, past, [v] + future) && NeverReturns(past + [v] + future) && !Blocks(s.file, v)
    ensures Covers(Clicked(s, v, login, life), past + [v], future)
  {
    Appended(s.log, Submitted(v));
    forall r <- OpenSubmits(s.log) | r in future ensures r == v {
      PastNeverReturns(past, v, future, r);
    }
    assert forall r <- future :: r in [v] + future;
  }

  lemma EnterCovers(s: State, a: Answers, life: nat, past: seq<nat>, future: seq<nat>)
    requires Covers(s, past, [a.revision] + future) && NeverReturns(past + [a.revision] + future)
    ensures Covers(Entered(s, a, life), past + [a.revision], future)
  {
    var v := a.revision;
    SeenCovers(s, life, past + [v], future);
    assert forall r <- future :: r in [v] + future;
    if Reaches(s.file, a) {
      ClickCovers(s, v, a.login, life, past, future);
      ClickCovers(s, v, a.login, 2, past, future);
      SeenCovers(Clicked(s, v, a.login, 2), if life >= 2 then life - 2 else 0, past + [v], future);
    }
  }

  lemma {:induction false} ScheduleCovers(s: State, schedule: Schedule, future: seq<nat>)
    requires Guarded(s.log) && OpenSubmits(s.log) == {} && NeverReturns(Revisions(schedule) + future)
    ensures Covers(Played(s, schedule), Revisions(schedule), future)
  {
    match schedule
    case Nothing =>
    case Then(before, Enter(a, life)) =>
      assert Revisions(schedule) + future == Revisions(before) + ([a.revision] + future);
      ScheduleCovers(s, before, [a.revision] + future);
      EnterCovers(Played(s, before), a, life, Revisions(before), future);
    case Then(before, last) =>
      assert Revisions(schedule) == Revisions(before);
      ScheduleCovers(s, before, future);
      SeenCovers(Played(s, before), last.life, Revisions(before), future);
  }

  /* ---------- the run that fails otherwise ---------- */

  // A login window; the login goes this way.
  function Attempting(revision: nat, login: Login): Answers {
    Answers(LoginRequired, OtherWindow, true, revision, login, false, false, false)
  }

  // A window the recovery leaves alone.
  function Idle(revision: nat): Answers {
    Attempting(revision, StoppedEarly).(first := OtherWindow)
  }

  // At i a rotation whose click ends unclear, at j a login that stops after its guard, at k
  // another unclear click; nothing otherwise.
  function Relapse(revs: seq<nat>, n: nat, i: nat, j: nat, k: nat): Schedule
    requires n <= |revs|
  {
    if n == 0 then Nothing
    else
      var before, v := Relapse(revs, n - 1, i, j, k), revs[n - 1];
      if n - 1 == i then Then(Then(before, Stop(LoggedIn, 1)), Enter(Attempting(v, Unclear), 2))
      else if n - 1 == j then Then(before, Enter(Attempting(v, StoppedLate), 1))
      else if n - 1 == k then Then(before, Enter(Attempting(v, Unclear), 2))
      else Then(before, Enter(Idle(v), 0))
  }

  lemma {:induction false} RelapseRevisions(revs: seq<nat>, n: nat, i: nat, j: nat, k: nat)
    requires n <= |revs|
    ensures Revisions(Relapse(revs, n, i, j, k)) == revs[..n]
  {
    if n > 0 {
      RelapseRevisions(revs, n - 1, i, j, k);
      assert revs[..n] == revs[..n - 1] + [revs[n - 1]];
    }
  }

  // Where the run stands after n sessions.
  predicate Relapsing(start: State, s: State, v: nat, w: nat, n: nat, i: nat, j: nat, k: nat) {
    if n <= i then s == start
    else if n <= k then
      s == State(Attempt(if n <= j then v else w, AttemptUnresolved), start.log + [Authenticated] + [Submitted(v)])
    else s.log == start.log + [Authenticated] + [Submitted(v)] + [Submitted(v)]
  }

  lemma {:induction false} RelapseRuns(s: State, revs: seq<nat>, n: nat, i: nat, j: nat, k: nat)
    requires i < j < k < |revs| && n <= |revs| && revs[i] == revs[k] != revs[j]
    ensures Relapsing(s, Played(s, Relapse(revs, n, i, j, k)), revs[i], revs[j], n, i, j, k)
  {
    if n > 0 {
      RelapseRuns(s, revs, n - 1, i, j, k);
    }
  }

  lemma TwiceIsUnguarded(log: seq<Event>, v: nat)
    ensures !Guarded(log + [Authenticated] + [Submitted(v)] + [Submitted(v)])
  {
    Appended(log + [Authenticated], Submitted(v));
    Appended(log + [Authenticated] + [Submitted(v)], Submitted(v));
  }

  /** The guard's exact reach, from any state file on: the recoveries that read these revisions never
      submit one twice without an authenticated window between, however their sections interleave,
      whatever their drivers answer and wherever they die, if and only if no revision comes back
      after another one. */
  lemma GuardReach(s: State, revs: seq<nat>)
    requires Guarded(s.log) && OpenSubmits(s.log) == {}
    ensures (forall schedule | Revisions(schedule) == revs :: Guarded(Played(s, schedule).log)) <==> NeverReturns(revs)
  {
    if NeverReturns(revs) {
      forall schedule | Revisions(schedule) == revs ensures Guarded(Played(s, schedule).log) {
        assert revs + [] == revs;
        ScheduleCovers(s, schedule, []);
      }
    }
    if i, j, k :| 0 <= i < j < k < |revs| && revs[i] == revs[k] && revs[j] != revs[i] {
      var schedule := Relapse(revs, |revs|, i, j, k);
      RelapseRevisions(revs, |revs|, i, j, k);
      assert revs[..|revs|] == revs;
      RelapseRuns(s, revs, |revs|, i, j, k);
      TwiceIsUnguarded(s.log, revs[i]);
      assert !Guarded(Played(s, schedule).log);
    }
  }

  /* ---------- the recovery ---------- */

  class Recovery {
    var file: StateFile
    var log: seq<Event>

    constructor (file: StateFile)
      ensures Now() == State(file, [])
    {
      this.file, log := file, [];
    }

    function Now(): State
      reads this
    {
      State(file, log)
    }

    // An authenticated window was seen, and the guard is then withdrawn.
    method SeeAndClear(life: nat) returns (alive: bool)
      modifies this
      ensures Now() == Seen(old(Now()), life) && alive == (life > 0)
    {
      log := log + [Authenticated];
      alive := life > 0;
      if alive {
        file := Absent;
      }
    }

    /** `driver.login` with `before_submit`: the guard is durable before the click. */
    method Submit(revision: nat, login: Login, life: nat) returns (r: Outcome)
      modifies this
      ensures Now() == Clicked(old(Now()), revision, login, life)
      ensures r != NotNeeded && (r == Recovered <==> login.Accepted? && life >= 2)
      ensures login.StoppedEarly? || life == 0 ==> Now() == old(Now())
      ensures !login.StoppedEarly? && life > 0 ==>
        && file == Attempt(revision, if login.Rejected? && life > 2 then RejectedOrVerification else AttemptUnresolved)
        && log == if login.StoppedLate? || life == 1 then old(log) else old(log) + [Submitted(revision)]
    {
      if login.StoppedEarly? {
        return Failed;
      }
      if life == 0 {
        return Died;
      }
      file := Attempt(revision, AttemptUnresolved);
      if login.StoppedLate? {
        return Failed;
      }
      if life == 1 {
        return Died;
      }
      log := log + [Submitted(revision)];
      if login.Accepted? {
        return Recovered;
      }
      if login.Rejected? {
        if life == 2 {
          return Died;
        }
        file := Attempt(revision, RejectedOrVerification);
      }
      r := Failed;
    }

    // The first section of `_recover_session`.
    method EnterSession(a: Answers, life: nat) returns (r: Outcome)
      modifies this
      ensures Now() == Entered(old(Now()), a, life)
      ensures r == NotNeeded <==> a.first.LoggedIn? && life > 0
      ensures r == Recovered <==> GoesOn(old(Now()), a, life)
      ensures r == Recovered ==> file == Absent && log != [] && log[|log| - 1] == Authenticated
      ensures old(file) == Garbage && !a.first.LoggedIn? && !a.afterStart.LoggedIn? ==> Now() == old(Now()) && r == Failed
      ensures old(file) == Attempt(a.revision, AttemptUnresolved) || old(file) == Attempt(a.revision, RejectedOrVerification) ==>
        Submitted(a.revision) !in log[|old(log)|..]
      ensures old(log) <= log
    {
      if a.first.LoggedIn? {
        var alive := SeeAndClear(life);
        return if alive then NotNeeded else Died;
      }
      var current, left := if a.first.NoWindow? then a.afterStart else a.first, life;
      if !current.LoggedIn? {
        if !current.LoginRequired? || !a.prepared {
          return Failed;
        }
        if file.Garbage? || (file.Attempt? && file.revision == a.revision) {
          return Failed;
        }
        r := Submit(a.revision, a.login, life);
        if r != Recovered {
          return;
        }
        left := life - 2;
      }
      if !a.confirmed {
        return Failed;
      }
      var alive := SeeAndClear(left);
      r := if alive then Recovered else Died;
    }

    // The second one, after the bridge is back.
    method ConfirmSession(confirmed: bool, life: nat) returns (r: Outcome)
      modifies this
      ensures Now() == Done(old(Now()), Confirm(confirmed, life))
      ensures r == Recovered <==> confirmed && life > 0
    {
      if !confirmed {
        return Failed;
      }
      var alive := SeeAndClear(life);
      r := if alive then Recovered else Died;
    }

    /** `_recover_session`, no other process taking the lock in between. */
    method RecoverSession(a: Answers, life: nat, later: nat) returns (r: Outcome)
      modifies this
      ensures Now() == WholeSession(old(Now()), a, life, later)
      ensures r == Recovered <==> GoesOn(old(Now()), a, life) && a.bridgeBack && a.confirmedAgain && later > 0
      ensures r == Recovered ==> file == Absent && log != [] && log[|log| - 1] == Authenticated
    {
      r := EnterSession(a, life);
      if r != Recovered {
        return;
      }
      if !a.bridgeBack {
        return Failed;
      }
      r := ConfirmSession(a.confirmedAgain, later);
    }

    // The first section of a rotation: the running session is seen, its guard withdrawn.
    method StopSession(seen: Window, life: nat, stopped: bool) returns (r: Outcome)
      modifies this
      ensures Now() == Done(old(Now()), Stop(seen, life))
      ensures r == Recovered <==> seen.LoggedIn? && life > 0 && stopped
    {
      if !seen.LoggedIn? {
        return Failed;
      }
      var alive := SeeAndClear(life);
      r := if !alive then Died else if stopped then Recovered else Failed;
    }

    /** `rotate_qmt_session_after_resource_pressure`: stopping, then a recovery. */
    method Rotate(seen: Window, stopping: nat, stopped: bool, a: Answers, life: nat, later: nat) returns (r: Outcome)
      modifies this
      ensures Now() == if seen.LoggedIn? && stopping > 0 && stopped then WholeSession(Seen(old(Now()), stopping), a, life, later)
                       else Done(old(Now()), Stop(seen, stopping))
      ensures r == Recovered ==> file == Absent && log != [] && log[|log| - 1] == Authenticated
    {
      r := StopSession(seen, stopping, stopped);
      if r == Recovered {
        r := RecoverSession(a, life, later);
      }
    }

    /** Any interleaving of the sections of recoveries and rotations, each dying anywhere: as long as
        no revision comes back after another one, none is submitted twice without an authenticated
        window between. */
    method Live(sections: seq<Section>) returns (ghost schedule: Schedule)
      requires Guarded(log) && OpenSubmits(log) == {}
      modifies this
      ensures schedule == InOrder(sections) && Now() == Played(old(Now()), schedule)
      ensures NeverReturns(Revisions(schedule)) ==> Guarded(log)
    {
      schedule := Nothing;
      var i := 0;
      while i < |sections|
        invariant 0 <= i <= |sections|
        invariant schedule == InOrder(sections[..i]) && Now() == Played(old(Now()), schedule)
      {
        assert sections[..i + 1][..i] == sections[..i];
        match sections[i] {
          case Enter(a, life) => var _ := EnterSession(a, life);
          case Confirm(confirmed, life) => var _ := ConfirmSession(confirmed, life);
          case Stop(seen, life) => var _ := StopSession(seen, life, true);
        }
        schedule := Then(schedule, sections[i]);
        i := i + 1;
      }
      assert sections[..i] == sections;
      GuardReach(old(Now()), Revisions(schedule));
    }

    /** The shortest failing run, in whole sessions one after another: a guard written for another
        credential, whose click never came, forgets the first one; if that one comes back it is
        submitted again. */
    method CredentialReturns(first: nat, other: nat)
      requires first != other
      modifies this
      ensures log == old(log) + [Authenticated] + [Submitted(first)] + [Submitted(first)] && !Guarded(log)
    {
      var _ := Rotate(LoggedIn, 1, true, Attempting(first, Unclear), 2, 0);
      var _ := RecoverSession(Attempting(other, StoppedLate), 1, 0);
      var _ := RecoverSession(Attempting(first, Unclear), 2, 0);
      TwiceIsUnguarded(old(log), first);
    }
  }
}
