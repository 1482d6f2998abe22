/** The Pomodoro store (`usePomodoroStore`): a work/break countdown with per-identity
    persisted settings. Local storage is the map `Disk` from key to an optional record;
    `None` stands for a stored value that does not parse or has no `state` member.
    Actions that write to storage return the new state together with the new disk. */
module PomodoroStore {
  import opened Wrappers
  import opened Text

  datatype Mode = Work | Break

  datatype PomodoroState = PomodoroState(
    isRunning: bool,
    mode: Mode,
    timeRemaining: int,
    workDuration: int,
    breakDuration: int,
    longBreakDuration: int,
    sessionsUntilLongBreak: int,
    completedSessions: int,
    currentTask: string,
    autoStartBreaks: bool,
    autoStartWork: bool,
    userId: Option<string>)

  /** The store before any action: 25-minute work interval, idle, guest identity. */
  const Initial := PomodoroState(false, Work, 25 * 60, 25, 5, 15, 4, 0, "", false, false, None)

  /** The persisted `state` object; every field may be missing. */
  datatype Record = Record(
    workDuration: Option<int>,
    breakDuration: Option<int>,
    longBreakDuration: Option<int>,
    sessionsUntilLongBreak: Option<int>,
    completedSessions: Option<int>,
    autoStartBreaks: Option<bool>,
    autoStartWork: Option<bool>)

  const EmptyRecord := Record(None, None, None, None, None, None, None)

  type Disk = map<string, Option<Record>>

  /** A state together with the storage it leaves behind. */
  datatype Effect = Effect(state: PomodoroState, disk: Disk)

  const KeyPrefix := "pomodoro-storage-"
  const GuestKey := "pomodoro-storage-guest"

  /** `getStorageKey`: a signed-in identity gets its own key; no identity, or the empty id, shares the guest key. */
  function StorageKey(userId: Option<string>): (k: string)
    ensures StartsWith(k, KeyPrefix)
    ensures Truthy(userId) ==> k[|KeyPrefix|..] == userId.value
    ensures !Truthy(userId) ==> k == GuestKey
  {
    if Truthy(userId) then KeyPrefix + userId.value else GuestKey
  }

  /** Distinct non-empty ids never share a key, but the id "guest" collides with the guest scope. */
  lemma StorageKeyScopes(a: string, b: string)
    ensures a != "" && b != "" && a != b ==> StorageKey(Some(a)) != StorageKey(Some(b))
    ensures StorageKey(Some("guest")) == StorageKey(None)
    ensures StorageKey(Some("")) == StorageKey(None)
  {
    if a != "" && b != "" && a != b {
      assert StorageKey(Some(a))[|KeyPrefix|..] == a;
      assert StorageKey(Some(b))[|KeyPrefix|..] == b;
    }
  }

  /** `loadUserPomodoroData`: the parsed record under the key, if any. */
  function Load(disk: Disk, key: string): (r: Option<Record>)
    ensures key !in disk ==> r.None?
    ensures r.Some? ==> key in disk && disk[key] == r
  {
    if key in disk then disk[key] else None
  }

  /** `{ ...existing, ...patch }`: present patch fields win. */
  function Merge(existing: Record, patch: Record): (r: Record)
    ensures patch.workDuration.Some? ==> r.workDuration == patch.workDuration
    ensures patch.workDuration.None? ==> r.workDuration == existing.workDuration
    ensures patch.breakDuration.Some? ==> r.breakDuration == patch.breakDuration
    ensures patch.breakDuration.None? ==> r.breakDuration == existing.breakDuration
    ensures patch.longBreakDuration.Some? ==> r.longBreakDuration == patch.longBreakDuration
    ensures patch.longBreakDuration.None? ==> r.longBreakDuration == existing.longBreakDuration
    ensures patch.sessionsUntilLongBreak.Some? ==> r.sessionsUntilLongBreak == patch.sessionsUntilLongBreak
    ensures patch.sessionsUntilLongBreak.None? ==> r.sessionsUntilLongBreak == existing.sessionsUntilLongBreak
    ensures patch.completedSessions.Some? ==> r.completedSessions == patch.completedSessions
    ensures patch.completedSessions.None? ==> r.completedSessions == existing.completedSessions
    ensures patch.autoStartBreaks.Some? ==> r.autoStartBreaks == patch.autoStartBreaks
    ensures patch.autoStartBreaks.None? ==> r.autoStartBreaks == existing.autoStartBreaks
    ensures patch.autoStartWork.Some? ==> r.autoStartWork == patch.autoStartWork
    ensures patch.autoStartWork.None? ==> r.autoStartWork == existing.autoStartWork
  {
    Record(
      Override(existing.workDuration, patch.workDuration),
      Override(existing.breakDuration, patch.breakDuration),
      Override(existing.longBreakDuration, patch.longBreakDuration),
      Override(existing.sessionsUntilLongBreak, patch.sessionsUntilLongBreak),
      Override(existing.completedSessions, patch.completedSessions),
      Override(existing.autoStartBreaks, patch.autoStartBreaks),
      Override(existing.autoStartWork, patch.autoStartWork))
  }

  /** `saveUserPomodoroData`: merges the patch over whatever parses under the identity's key
      (an unreadable value counts as empty) and writes only that key. */
  function Save(disk: Disk, userId: Option<string>, patch: Record): (r: Disk)
    ensures Load(r, StorageKey(userId)) == Some(Merge(Load(disk, StorageKey(userId)).GetOr(EmptyRecord), patch))
    ensures forall k :: k != StorageKey(userId) ==> Load(r, k) == Load(disk, k)
    ensures r.Keys == disk.Keys + {StorageKey(userId)}
  {
    var key := StorageKey(userId);
    disk[key := Some(Merge(Load(disk, key).GetOr(EmptyRecord), patch))]
  }

  /** Merging never forgets a field the disk already held: only patched fields change. */
  lemma MergeOverEmpty(patch: Record)
    ensures Merge(EmptyRecord, patch) == patch
    ensures Merge(patch, EmptyRecord) == patch
  {
  }

  /** `r` has adopted a stored record: every setting and the count are the stored value or its
      default, the countdown is a fresh work interval, and the timer is stopped. A stored work
      duration of 0 is kept as the setting while the countdown falls back to 25 minutes. */
  predicate Adopts(r: PomodoroState, rec: Record) {
    && r.workDuration == rec.workDuration.GetOr(25)
    && r.breakDuration == rec.breakDuration.GetOr(5)
    && r.longBreakDuration == rec.longBreakDuration.GetOr(15)
    && r.sessionsUntilLongBreak == rec.sessionsUntilLongBreak.GetOr(4)
    && r.completedSessions == rec.completedSessions.GetOr(0)
    && r.autoStartBreaks == rec.autoStartBreaks.GetOr(false)
    && r.autoStartWork == rec.autoStartWork.GetOr(false)
    && r.timeRemaining == (if rec.workDuration.Some? && rec.workDuration.value != 0 then rec.workDuration.value * 60 else 25 * 60)
    && r.mode == Work && !r.isRunning
  }

  /** `loadUserData`: with no readable record nothing changes; otherwise the record is adopted,
      keeping the task and the identity. */
  function LoadUserData(s: PomodoroState, disk: Disk): (r: PomodoroState)
    ensures Load(disk, StorageKey(s.userId)).None? ==> r == s
    ensures Load(disk, StorageKey(s.userId)).Some? ==>
      Adopts(r, Load(disk, StorageKey(s.userId)).value) && r.currentTask == s.currentTask && r.userId == s.userId
  {
    match Load(disk, StorageKey(s.userId))
    case None => s
    case Some(rec) =>
      s.(
        workDuration := rec.workDuration.GetOr(25),
        breakDuration := rec.breakDuration.GetOr(5),
        longBreakDuration := rec.longBreakDuration.GetOr(15),
        sessionsUntilLongBreak := rec.sessionsUntilLongBreak.GetOr(4),
        completedSessions := rec.completedSessions.GetOr(0),
        autoStartBreaks := rec.autoStartBreaks.GetOr(false),
        autoStartWork := rec.autoStartWork.GetOr(false),
        timeRemaining := if rec.workDuration.Some? && rec.workDuration.value != 0 then rec.workDuration.value * 60 else 25 * 60,
        mode := Work,
        isRunning := false)
  }

  /** `setUserId`: switch identity, then reload that identity's settings. */
  function SetUserId(s: PomodoroState, userId: Option<string>, disk: Disk): (r: PomodoroState)
    ensures r.userId == userId && r.currentTask == s.currentTask
    ensures Load(disk, StorageKey(userId)).None? ==> r == s.(userId := userId)
    ensures Load(disk, StorageKey(userId)).Some? ==> Adopts(r, Load(disk, StorageKey(userId)).value)
  {
    LoadUserData(s.(userId := userId), disk)
  }

  /** A stored work duration of 0 is adopted as the setting, yet the countdown shows 25 minutes. */
  lemma ZeroWorkDurationMismatch(s: PomodoroState, disk: Disk)
    requires Load(disk, StorageKey(s.userId)) == Some(EmptyRecord.(workDuration := Some(0)))
    ensures LoadUserData(s, disk).workDuration == 0
    ensures LoadUserData(s, disk).timeRemaining == 25 * 60
  {
  }

  /** Saving a patch for an identity and switching to it reads the patch back. */
  lemma SaveThenSwitch(s: PomodoroState, disk: Disk, id: string, minutes: int)
    ensures var r := SetUserId(s, Some(id), Save(disk, Some(id), EmptyRecord.(workDuration := Some(minutes))));
            r.workDuration == minutes && r.mode == Work && !r.isRunning && r.userId == Some(id)
  {
  }

  function Start(s: PomodoroState): (r: PomodoroState)
    ensures r.isRunning
    ensures r.mode == s.mode && r.timeRemaining == s.timeRemaining && r.completedSessions == s.completedSessions
    ensures SameSettings(s, r)
  {
    s.(isRunning := true)
  }

  function Pause(s: PomodoroState): (r: PomodoroState)
    ensures !r.isRunning
    ensures r.mode == s.mode && r.timeRemaining == s.timeRemaining && r.completedSessions == s.completedSessions
    ensures SameSettings(s, r)
  {
    s.(isRunning := false)
  }

  /** Start and pause only move the running flag: each undoes the other from the matching state. */
  lemma StartPauseRoundTrip(s: PomodoroState)
    ensures !s.isRunning ==> Pause(Start(s)) == s
    ensures s.isRunning ==> Start(Pause(s)) == s
    ensures Start(Start(s)) == Start(s) && Pause(Pause(s)) == Pause(s)
  {
  }

  /** JavaScript's `n % k === 0`: `n % 0` is NaN and never equals 0; otherwise it is divisibility. */
  predicate DividesJs(n: int, k: int) {
    k != 0 && n % k == 0
  }

  /** Length in seconds of the break that follows `completed` finished work intervals. */
  function BreakSeconds(s: PomodoroState, completed: int): int
  {
    if DividesJs(completed, s.sessionsUntilLongBreak) then s.longBreakDuration * 60 else s.breakDuration * 60
  }

  /** `reset`: stop and refill the current interval; a long break needs at least one completed session. */
  function Reset(s: PomodoroState): (r: PomodoroState)
    ensures !r.isRunning && r.mode == s.mode && r.completedSessions == s.completedSessions
    ensures s.mode == Work ==> r.timeRemaining == s.workDuration * 60
    ensures s.mode == Break && s.completedSessions > 0 && DividesJs(s.completedSessions, s.sessionsUntilLongBreak)
            ==> r.timeRemaining == s.longBreakDuration * 60
    ensures s.mode == Break && !(s.completedSessions > 0 && DividesJs(s.completedSessions, s.sessionsUntilLongBreak))
            ==> r.timeRemaining == s.breakDuration * 60
    ensures SameSettings(s, r)
  {
    var isLongBreak := s.completedSessions > 0 && DividesJs(s.completedSessions, s.sessionsUntilLongBreak);
    var minutes := if s.mode == Work then s.workDuration else if isLongBreak then s.longBreakDuration else s.breakDuration;
    s.(timeRemaining := minutes * 60, isRunning := false)
  }

  lemma ResetIdempotent(s: PomodoroState)
    ensures Reset(Reset(s)) == Reset(s)
  {
  }

  /** The persisted configuration: durations, long-break period and auto-start flags. */
  predicate SameConfig(a: PomodoroState, b: PomodoroState) {
    && a.workDuration == b.workDuration && a.breakDuration == b.breakDuration
    && a.longBreakDuration == b.longBreakDuration && a.sessionsUntilLongBreak == b.sessionsUntilLongBreak
    && a.autoStartBreaks == b.autoStartBreaks && a.autoStartWork == b.autoStartWork
  }

  /** The configuration, the task label and the identity: the fields a countdown action leaves alone. */
  predicate SameSettings(a: PomodoroState, b: PomodoroState) {
    SameConfig(a, b) && a.currentTask == b.currentTask && a.userId == b.userId
  }

  /** The patch holding only a completed-session count. */
  function CompletedPatch(n: int): Record
  {
    EmptyRecord.(completedSessions := Some(n))
  }

  /** `tick`: idle ticks do nothing; above 1 second the countdown drops by exactly one; at 1 or
      below the interval completes: the mode flips, leaving work counts a session, the new
      interval is filled and auto-start decides whether it runs, and the count is saved. */
  function Tick(s: PomodoroState, disk: Disk): (r: Effect)
    ensures !s.isRunning ==> r == Effect(s, disk)
    ensures s.isRunning && s.timeRemaining > 1 ==>
      r.disk == disk && r.state == s.(timeRemaining := s.timeRemaining - 1)
    ensures s.isRunning && s.timeRemaining <= 1 ==>
      && r.state.mode != s.mode
      && r.state.completedSessions == (if s.mode == Work then s.completedSessions + 1 else s.completedSessions)
      && r.state.timeRemaining == (if r.state.mode == Work then s.workDuration * 60 else BreakSeconds(s, r.state.completedSessions))
      && r.state.isRunning == (if r.state.mode == Work then s.autoStartWork else s.autoStartBreaks)
      && SameSettings(s, r.state)
      && r.disk == Save(disk, s.userId, CompletedPatch(r.state.completedSessions))
  {
    if !s.isRunning then Effect(s, disk)
    else if s.timeRemaining <= 1 then
      var newMode := if s.mode == Work then Break else Work;
      var newCompleted := if s.mode == Work then s.completedSessions + 1 else s.completedSessions;
      var isLongBreak := DividesJs(newCompleted, s.sessionsUntilLongBreak);
      var minutes := if newMode == Work then s.workDuration else if isLongBreak then s.longBreakDuration else s.breakDuration;
      var autoStart := if newMode == Work then s.autoStartWork else s.autoStartBreaks;
      Effect(
        s.(mode := newMode, timeRemaining := minutes * 60, completedSessions := newCompleted, isRunning := autoStart),
        Save(disk, s.userId, CompletedPatch(newCompleted)))
    else Effect(s.(timeRemaining := s.timeRemaining - 1), disk)
  }

  function SetTask(s: PomodoroState, task: string): (r: PomodoroState)
    ensures r.currentTask == task
    ensures r.isRunning == s.isRunning && r.mode == s.mode && r.timeRemaining == s.timeRemaining
    ensures r.completedSessions == s.completedSessions && SameConfig(s, r) && r.userId == s.userId
  {
    s.(currentTask := task)
  }

  /** The task label is never persisted nor touched by the countdown: it survives completing an
      interval, a reset, both skips and reloading the identity's settings. */
  lemma TaskSurvives(s: PomodoroState, task: string, disk: Disk)
    ensures var t := SetTask(s, task);
      && Tick(t, disk).state.currentTask == task
      && Reset(t).currentTask == task
      && SkipToBreak(t, disk).state.currentTask == task
      && SkipToWork(t).currentTask == task
      && LoadUserData(t, disk).currentTask == task
  {
  }

  /** `setWorkDuration`: stores and saves the minutes; refills the countdown only when idle in work mode. */
  function SetWorkDuration(s: PomodoroState, minutes: int, disk: Disk): (r: Effect)
    ensures r.state.workDuration == minutes
    ensures r.state.timeRemaining == if s.mode == Work && !s.isRunning then minutes * 60 else s.timeRemaining
    ensures r.state.mode == s.mode && r.state.isRunning == s.isRunning && r.state.breakDuration == s.breakDuration
    ensures r.disk == Save(disk, s.userId, EmptyRecord.(workDuration := Some(minutes)))
    ensures r.state.completedSessions == s.completedSessions && SameSettings(s.(workDuration := minutes), r.state)
  {
    var t := if s.mode == Work && !s.isRunning then minutes * 60 else s.timeRemaining;
    Effect(s.(workDuration := minutes, timeRemaining := t), Save(disk, s.userId, EmptyRecord.(workDuration := Some(minutes))))
  }

  /** `setBreakDuration`: stores and saves the minutes; refills the countdown only when idle in break mode. */
  function SetBreakDuration(s: PomodoroState, minutes: int, disk: Disk): (r: Effect)
    ensures r.state.breakDuration == minutes
    ensures r.state.timeRemaining == if s.mode == Break && !s.isRunning then minutes * 60 else s.timeRemaining
    ensures r.state.mode == s.mode && r.state.isRunning == s.isRunning && r.state.workDuration == s.workDuration
    ensures r.disk == Save(disk, s.userId, EmptyRecord.(breakDuration := Some(minutes)))
    ensures r.state.completedSessions == s.completedSessions && SameSettings(s.(breakDuration := minutes), r.state)
  {
    var t := if s.mode == Break && !s.isRunning then minutes * 60 else s.timeRemaining;
    Effect(s.(breakDuration := minutes, timeRemaining := t), Save(disk, s.userId, EmptyRecord.(breakDuration := Some(minutes))))
  }

  /** `setLongBreakDuration`: stores and saves; never touches the running countdown, even during a long break. */
  function SetLongBreakDuration(s: PomodoroState, minutes: int, disk: Disk): (r: Effect)
    ensures r.state.longBreakDuration == minutes
    ensures r.state.timeRemaining == s.timeRemaining && r.state.mode == s.mode && r.state.isRunning == s.isRunning
    ensures r.disk == Save(disk, s.userId, EmptyRecord.(longBreakDuration := Some(minutes)))
    ensures r.state.completedSessions == s.completedSessions && SameSettings(s.(longBreakDuration := minutes), r.state)
  {
    Effect(s.(longBreakDuration := minutes), Save(disk, s.userId, EmptyRecord.(longBreakDuration := Some(minutes))))
  }

  /** `setSessionsUntilLongBreak`: stores and saves; never touches the running countdown. */
  function SetSessionsUntilLongBreak(s: PomodoroState, sessions: int, disk: Disk): (r: Effect)
    ensures r.state.sessionsUntilLongBreak == sessions
    ensures r.state.timeRemaining == s.timeRemaining && r.state.mode == s.mode && r.state.isRunning == s.isRunning
    ensures r.disk == Save(disk, s.userId, EmptyRecord.(sessionsUntilLongBreak := Some(sessions)))
    ensures r.state.completedSessions == s.completedSessions && SameSettings(s.(sessionsUntilLongBreak := sessions), r.state)
  {
    Effect(s.(sessionsUntilLongBreak := sessions), Save(disk, s.userId, EmptyRecord.(sessionsUntilLongBreak := Some(sessions))))
  }

  /** `skipToBreak`: counts the work interval as completed (from either mode) and enters the break it earns. */
  function SkipToBreak(s: PomodoroState, disk: Disk): (r: Effect)
    ensures r.state.mode == Break && r.state.completedSessions == s.completedSessions + 1
    ensures r.state.timeRemaining == BreakSeconds(s, s.completedSessions + 1)
    ensures r.state.isRunning == s.autoStartBreaks
    ensures SameSettings(s, r.state)
    ensures r.disk == Save(disk, s.userId, CompletedPatch(s.completedSessions + 1))
  {
    var newCompleted := s.completedSessions + 1;
    Effect(
      s.(mode := Break, timeRemaining := BreakSeconds(s, newCompleted), completedSessions := newCompleted, isRunning := s.autoStartBreaks),
      Save(disk, s.userId, CompletedPatch(newCompleted)))
  }

  /** `skipToWork`: enters a full work interval without counting anything and without saving. */
  function SkipToWork(s: PomodoroState): (r: PomodoroState)
    ensures r.mode == Work && r.timeRemaining == s.workDuration * 60
    ensures r.completedSessions == s.completedSessions && r.isRunning == s.autoStartWork
    ensures SameSettings(s, r)
  {
    s.(mode := Work, timeRemaining := s.workDuration * 60, isRunning := s.autoStartWork)
  }

  function ToggleAutoStartBreaks(s: PomodoroState, disk: Disk): (r: Effect)
    ensures r.state.autoStartBreaks != s.autoStartBreaks && r.state.autoStartWork == s.autoStartWork
    ensures r.state.isRunning == s.isRunning && r.state.mode == s.mode && r.state.timeRemaining == s.timeRemaining
    ensures Load(r.disk, StorageKey(s.userId)).Some?
    ensures Load(r.disk, StorageKey(s.userId)).value.autoStartBreaks == Some(r.state.autoStartBreaks)
    ensures r.state.completedSessions == s.completedSessions && SameSettings(s.(autoStartBreaks := !s.autoStartBreaks), r.state)
    ensures r.disk == Save(disk, s.userId, EmptyRecord.(autoStartBreaks := Some(!s.autoStartBreaks)))
  {
    var v := !s.autoStartBreaks;
    Effect(s.(autoStartBreaks := v), Save(disk, s.userId, EmptyRecord.(autoStartBreaks := Some(v))))
  }

  function ToggleAutoStartWork(s: PomodoroState, disk: Disk): (r: Effect)
    ensures r.state.autoStartWork != s.autoStartWork && r.state.autoStartBreaks == s.autoStartBreaks
    ensures r.state.isRunning == s.isRunning && r.state.mode == s.mode && r.state.timeRemaining == s.timeRemaining
    ensures Load(r.disk, StorageKey(s.userId)).Some?
    ensures Load(r.disk, StorageKey(s.userId)).value.autoStartWork == Some(r.state.autoStartWork)
    ensures r.state.completedSessions == s.completedSessions && SameSettings(s.(autoStartWork := !s.autoStartWork), r.state)
    ensures r.disk == Save(disk, s.userId, EmptyRecord.(autoStartWork := Some(!s.autoStartWork)))
  {
    var v := !s.autoStartWork;
    Effect(s.(autoStartWork := v), Save(disk, s.userId, EmptyRecord.(autoStartWork := Some(v))))
  }

  /** Countdown and durations are never negative. */
  predicate Valid(s: PomodoroState) {
    s.timeRemaining >= 0 && s.workDuration >= 0 && s.breakDuration >= 0 && s.longBreakDuration >= 0
  }

  /** `tick` intercepts the boundary before decrementing, so it never drives the countdown below 0. */
  lemma TickKeepsValid(s: PomodoroState, disk: Disk)
    requires Valid(s)
    ensures Valid(Tick(s, disk).state)
  {
  }

  /** Completing a work interval whose new count is a multiple of the long-break period starts a long break. */
  lemma TickLongBreakRule(s: PomodoroState, disk: Disk)
    requires s.isRunning && s.timeRemaining <= 1 && s.mode == Work
    ensures var r := Tick(s, disk).state;
            && r.mode == Break && r.completedSessions == s.completedSessions + 1
            && (DividesJs(s.completedSessions + 1, s.sessionsUntilLongBreak) ==> r.timeRemaining == s.longBreakDuration * 60)
            && (!DividesJs(s.completedSessions + 1, s.sessionsUntilLongBreak) ==> r.timeRemaining == s.breakDuration * 60)
  {
  }

  /** Fourth session with a period of 4: a long break; second session: a short one. */
  lemma LongAndShortBreakExamples(s: PomodoroState, disk: Disk)
    requires s.isRunning && s.timeRemaining == 1 && s.mode == Work && s.sessionsUntilLongBreak == 4
    ensures s.completedSessions == 3 ==> Tick(s, disk).state.timeRemaining == s.longBreakDuration * 60
    ensures s.completedSessions == 3 ==> Tick(s, disk).state.completedSessions == 4
    ensures s.completedSessions == 1 ==> Tick(s, disk).state.timeRemaining == s.breakDuration * 60
  {
  }

  /** Completing a break returns to work without counting a session. */
  lemma TickFromBreak(s: PomodoroState, disk: Disk)
    requires s.isRunning && s.timeRemaining <= 1 && s.mode == Break
    ensures var r := Tick(s, disk).state;
            r.mode == Work && r.completedSessions == s.completedSessions
            && r.timeRemaining == s.workDuration * 60 && r.isRunning == s.autoStartWork
  {
  }

  /** `n` ticks in a row. */
  function TickN(s: PomodoroState, disk: Disk, n: nat): Effect
    decreases n
  {
    if n == 0 then Effect(s, disk) else var e := Tick(s, disk); TickN(e.state, e.disk, n - 1)
  }

  /** A running interval with `n + 1` seconds left counts down to 1 in `n` ticks, changing nothing
      else and writing nothing; the next tick completes it. */
  lemma {:induction false} CountdownLength(s: PomodoroState, disk: Disk, n: nat)
    requires s.isRunning && s.timeRemaining == n + 1
    ensures TickN(s, disk, n) == Effect(s.(timeRemaining := 1), disk)
    ensures Tick(TickN(s, disk, n).state, disk).state.mode != s.mode
    decreases n
  {
    if n > 0 {
      var e := Tick(s, disk);
      assert e == Effect(s.(timeRemaining := n), disk);
      CountdownLength(e.state, disk, n - 1);
      assert e.state.(timeRemaining := 1) == s.(timeRemaining := 1);
    }
  }

  /** For a non-negative count, resetting right after a work interval completes refills the same break. */
  lemma ResetAgreesAfterWork(s: PomodoroState, disk: Disk)
    requires s.isRunning && s.timeRemaining <= 1 && s.mode == Work && s.completedSessions >= 0
    ensures Reset(Tick(s, disk).state).timeRemaining == Tick(s, disk).state.timeRemaining
  {
  }

  /** `reset` requires a positive count for a long break and `tick` does not: from a stored count
      of -1, completing work starts a long break while resetting that break gives a short one. */
  lemma ResetDisagreesWithTick(s: PomodoroState, disk: Disk)
    requires s.isRunning && s.timeRemaining == 1 && s.mode == Work && s.completedSessions == -1
    requires s.sessionsUntilLongBreak == 4 && s.breakDuration == 5 && s.longBreakDuration == 15
    ensures Tick(s, disk).state.timeRemaining == 15 * 60
    ensures Reset(Tick(s, disk).state).timeRemaining == 5 * 60
  {
  }

  /** Skipping to a break uses the same long-break rule as completing work. */
  lemma SkipToBreakMatchesTick(s: PomodoroState, disk: Disk)
    requires s.isRunning && s.timeRemaining <= 1 && s.mode == Work
    ensures SkipToBreak(s, disk).state.timeRemaining == Tick(s, disk).state.timeRemaining
    ensures SkipToBreak(s, disk).state.completedSessions == Tick(s, disk).state.completedSessions
    ensures SkipToBreak(s, disk).disk == Tick(s, disk).disk
  {
  }

  /** Changing a duration while idle in the matching mode shows at once; otherwise the countdown is untouched. */
  lemma DurationSettersAffectOnlyMatchingIdleMode(s: PomodoroState, m: int, disk: Disk)
    ensures s.mode == Break || s.isRunning ==> SetWorkDuration(s, m, disk).state.timeRemaining == s.timeRemaining
    ensures s.mode == Work || s.isRunning ==> SetBreakDuration(s, m, disk).state.timeRemaining == s.timeRemaining
    ensures s.mode == Work && !s.isRunning ==> SetWorkDuration(s, m, disk).state.timeRemaining == m * 60
  {
  }
}
