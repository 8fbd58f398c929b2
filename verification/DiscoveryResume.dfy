/**
 What a session of the discovery crawl takes over from the sessions before it: its job, the
 finished keys, the page it was on, and the URLs the job already holds.
 */
module DiscoveryResume {
  import opened Prelude
  import opened Discovery

  // ----- What there is to take over -----

  /** The checkpoint names a job that is not finished. */
  predicate Usable(disk: Disk) {
    disk.checkpoint.Some? && disk.checkpoint.value.job < |disk.jobs| &&
    disk.jobs[disk.checkpoint.value.job] != COMPLETED
  }

  predicate LastUnfinished(jobs: seq<JobStatus>, job: nat) {
    job < |jobs| && jobs[job] != COMPLETED && forall i :: job < i < |jobs| ==> jobs[i] == COMPLETED
  }

  /** With `resume` the checkpoint's unfinished job, or else the last unfinished one; in all other cases a new job. */
  predicate RightJob(disk: Disk, resume: bool, job: nat) {
    if resume && Usable(disk) then job == disk.checkpoint.value.job
    else if resume && exists j :: 0 <= j < |disk.jobs| && disk.jobs[j] != COMPLETED then LastUnfinished(disk.jobs, job)
    else job == |disk.jobs|
  }

  /** The job is running now, and all others are as they were. */
  predicate JobRuns(before: seq<JobStatus>, after: seq<JobStatus>, job: nat) {
    job < |after| && |after| == (if job < |before| then |before| else job + 1) && after[job] == RUNNING &&
    forall i :: 0 <= i < |before| && i != job ==> i < |after| && after[i] == before[i]
  }

  /** The key is listed as completed for the job that is resumed. */
  predicate Skipped(disk: Disk, resume: bool, key: Key) {
    resume && Usable(disk) && KeyText(key) in disk.checkpoint.value.completedKeys
  }

  /** The page a session starts the key on. */
  function FirstPage(disk: Disk, resume: bool, key: Key): (page: nat) {
    if resume && Usable(disk) && disk.checkpoint.value.current.Some? && disk.checkpoint.value.current.value.key == key
    then disk.checkpoint.value.current.value.page else 1
  }

  /** The job has a crawl result for the URL. */
  predicate Held(disk: Disk, job: nat, url: string) {
    (job, url) in Attempts(disk.results)
  }

  /** Results and the checkpoint are of jobs that were started. */
  ghost predicate JobsKnown(disk: Disk) {
    (forall i :: 0 <= i < |disk.results| ==> disk.results[i].job < |disk.jobs|) &&
    (disk.checkpoint.Some? ==> disk.checkpoint.value.job < |disk.jobs|)
  }

  /** The page is none before `first` and within the limit. */
  predicate InPages(cfg: Config, first: nat, page: nat) {
    first <= page && (cfg.maxPages == 0 || page <= cfg.maxPages)
  }

  // ----- The start of a session -----

  /** A session that begins is for the right job, with what that job has done, and changes nothing else. */
  lemma BeginTakesOver(disk: Disk, resume: bool)
    requires JobsKnown(disk)
    ensures var now := Begin(disk, resume);
            var s := now.session;
            s.On? && s.pos == AtKey(0) && RightJob(disk, resume, s.job) &&
            now.disk == disk.(jobs := now.disk.jobs) && JobRuns(disk.jobs, now.disk.jobs, s.job) &&
            (forall key :: KeyText(key) in s.completed <==> Skipped(disk, resume, key)) &&
            (forall key :: StartPage(s, key) == FirstPage(disk, resume, key)) &&
            (forall url :: url in s.seen <==> Held(disk, s.job, url))
  {
    SeenAttempts(disk.results, Begin(disk, resume).session.job);
  }

  /** A new job has nothing to take over. */
  lemma NewJobStartsFresh(disk: Disk, resume: bool)
    requires JobsKnown(disk) && Begin(disk, resume).session.job == |disk.jobs|
    ensures Begin(disk, resume).session.seen == {} && Begin(disk, resume).session.completed == {}
  {
  }

  lemma StepKnown(cfg: Config, s: State, e: Event)
    requires Sound(cfg, s) && JobsKnown(s.disk)
    ensures JobsKnown(Step(cfg, s, e).disk)
  {
  }

  lemma {:induction false} RunKnown(cfg: Config, s: State, events: seq<Event>)
    requires Sound(cfg, s) && JobsKnown(s.disk)
    ensures JobsKnown(Run(cfg, s, events).disk)
    decreases |events|
  {
    if events != [] {
      RunKnown(cfg, s, events[..|events| - 1]);
      StepKnown(cfg, Run(cfg, s, events[..|events| - 1]), events[|events| - 1]);
    }
  }

  // ----- The rest of the session -----

  /** Where a session may be: in no completed key, on no earlier page, and storing no URL that its job held. */
  predicate PlaceOk(cfg: Config, was: Session, pos: Pos)
    requires was.On? && PosInRange(cfg, pos)
  {
    match pos
    case AtKey(_) => true
    case AtPage(k, page) => KeyText(cfg.keys[k]) !in was.completed && page >= StartPage(was, cfg.keys[k])
    case AtDoc(k, page, _) => KeyText(cfg.keys[k]) !in was.completed && InPages(cfg, StartPage(was, cfg.keys[k]), page)
    case Linking(k, page, i) =>
      KeyText(cfg.keys[k]) !in was.completed && InPages(cfg, StartPage(was, cfg.keys[k]), page) &&
      cfg.listing(cfg.keys[k], page)[i].url !in was.seen
    case AfterKey(k) => KeyText(cfg.keys[k]) !in was.completed
    case Finished => true
  }

  /** The URL is listed on a page that is left to do and not among those seen. */
  ghost predicate LeftToDo(cfg: Config, was: Session, url: string)
    requires was.On?
  {
    url !in was.seen &&
    exists k: nat, page: nat, i: nat :: OnList(cfg, was, k, page, i) && cfg.listing(cfg.keys[k], page)[i].url == url
  }

  predicate OnList(cfg: Config, was: Session, k: nat, page: nat, i: nat)
    requires was.On?
  {
    k < |cfg.keys| && KeyText(cfg.keys[k]) !in was.completed && InPages(cfg, StartPage(was, cfg.keys[k]), page) &&
    i < |cfg.listing(cfg.keys[k], page)|
  }

  /** Every attempt recorded since then is of the job, and of a URL that was left to do. */
  ghost predicate OnlyLeft(cfg: Config, was: Session, before: Disk, after: Disk)
    requires was.On?
  {
    forall job: nat, url :: Covered(after, job, url) && !Covered(before, job, url) ==>
      job == was.job && LeftToDo(cfg, was, url)
  }

  /** The session is still the one that began as `was`. */
  ghost predicate SameSession(cfg: Config, was: State, now: State)
    requires was.session.On?
  {
    now.session.On? && Sound(cfg, now) && now.session.job == was.session.job &&
    now.session.start == was.session.start &&
    was.session.completed <= now.session.completed && was.session.seen <= now.session.seen &&
    |now.disk.jobs| == |was.disk.jobs| &&
    (forall j :: 0 <= j < |was.disk.jobs| && j != was.session.job ==> now.disk.jobs[j] == was.disk.jobs[j]) &&
    was.disk.results <= now.disk.results && PlaceOk(cfg, was.session, now.session.pos) &&
    OnlyLeft(cfg, was.session, was.disk, now.disk)
  }

  lemma SameAtFirst(cfg: Config, was: State)
    requires was.session.On? && was.session.pos == AtKey(0) && was.session.job < |was.disk.jobs|
    ensures SameSession(cfg, was, was)
  {
  }

  /** A step that records no attempt. */
  lemma NothingRecorded(cfg: Config, was: State, a: Disk, b: Disk)
    requires was.session.On? && OnlyLeft(cfg, was.session, was.disk, a) && b.results == a.results &&
             b.failed == a.failed
    ensures OnlyLeft(cfg, was.session, was.disk, b)
  {
    forall job: nat, url | Covered(b, job, url) && !Covered(was.disk, job, url)
      ensures job == was.session.job && LeftToDo(cfg, was.session, url)
    {
      assert Covered(a, job, url);
    }
  }

  /** A step that records one attempt of a URL that was left to do. */
  lemma OneRecorded(cfg: Config, was: State, a: Disk, b: Disk, url: string)
    requires was.session.On? && OnlyLeft(cfg, was.session, was.disk, a) && LeftToDo(cfg, was.session, url)
    requires forall job: nat, u :: Covered(b, job, u) ==> Covered(a, job, u) || (job == was.session.job && u == url)
    ensures OnlyLeft(cfg, was.session, was.disk, b)
  {
  }

  lemma DocStaysSame(cfg: Config, was: State, now: State, fault: bool)
    requires was.session.On? && SameSession(cfg, was, now) && now.session.pos.AtDoc?
    ensures SameSession(cfg, was, StepDoc(cfg, now.disk, now.session, fault))
  {
    var s := now.session;
    var key, page, i := cfg.keys[s.pos.k], s.pos.page, s.pos.i;
    var after := StepDoc(cfg, now.disk, s, fault);
    if i < |cfg.listing(key, page)| && cfg.listing(key, page)[i].url !in s.seen && fault {
      assert OnList(cfg, was.session, s.pos.k, page, i);
      OneRecorded(cfg, was, now.disk, after.disk, cfg.listing(key, page)[i].url);
    } else {
      NothingRecorded(cfg, was, now.disk, after.disk);
    }
  }

  lemma LinkStaysSame(cfg: Config, was: State, now: State, fault: bool)
    requires was.session.On? && SameSession(cfg, was, now) && now.session.pos.Linking?
    ensures SameSession(cfg, was, StepLink(cfg, now.disk, now.session, fault))
  {
    var s := now.session;
    var key, page, i := cfg.keys[s.pos.k], s.pos.page, s.pos.i;
    var d := cfg.listing(key, page)[i];
    var after := StepLink(cfg, now.disk, s, fault);
    LinkAttempts(now.disk.results, s.job, d);
    assert OnList(cfg, was.session, s.pos.k, page, i);
    OneRecorded(cfg, was, now.disk, after.disk, d.url);
  }

  lemma StepStaysSame(cfg: Config, was: State, now: State, e: Event)
    requires was.session.On? && SameSession(cfg, was, now) && Step(cfg, now, e).session.On?
    ensures SameSession(cfg, was, Step(cfg, now, e))
  {
    if e.Advance? && now.session.pos.AtDoc? {
      DocStaysSame(cfg, was, now, e.fault);
    } else if e.Advance? && now.session.pos.Linking? {
      LinkStaysSame(cfg, was, now, e.fault);
    } else {
      NothingRecorded(cfg, was, now.disk, Step(cfg, now, e).disk);
    }
  }

  /** The session goes on through all the events. */
  ghost predicate StaysOn(cfg: Config, s: State, events: seq<Event>)
    requires Sound(cfg, s)
  {
    forall n :: 0 <= n <= |events| ==> Run(cfg, s, events[..n]).session.On?
  }

  lemma {:induction false} RunStaysSame(cfg: Config, was: State, events: seq<Event>)
    requires Sound(cfg, was) && StaysOn(cfg, was, events) && was.session.On? && was.session.pos == AtKey(0)
    ensures SameSession(cfg, was, Run(cfg, was, events))
    decreases |events|
  {
    if events == [] {
      SameAtFirst(cfg, was);
    } else {
      var before := events[..|events| - 1];
      assert events[..|events|] == events;
      assert forall n :: 0 <= n <= |before| ==> before[..n] == events[..n];
      RunStaysSame(cfg, was, before);
      StepStaysSame(cfg, was, Run(cfg, was, before), events[|events| - 1]);
    }
  }

  // ----- Stated on what the session found on disk -----

  /** The session is in no key that was completed, and on no page before the one it had to start from. */
  predicate InPlace(cfg: Config, disk: Disk, resume: bool, job: nat, pos: Pos)
    requires PosInRange(cfg, pos)
  {
    match pos
    case AtKey(_) => true
    case AtPage(k, page) => !Skipped(disk, resume, cfg.keys[k]) && page >= FirstPage(disk, resume, cfg.keys[k])
    case AtDoc(k, page, _) => !Skipped(disk, resume, cfg.keys[k]) &&
    InPages(cfg, FirstPage(disk, resume, cfg.keys[k]), page)
    case Linking(k, page, i) =>
      !Skipped(disk, resume, cfg.keys[k]) && InPages(cfg, FirstPage(disk, resume, cfg.keys[k]), page) &&
      !Held(disk, job, cfg.listing(cfg.keys[k], page)[i].url)
    case AfterKey(k) => !Skipped(disk, resume, cfg.keys[k])
    case Finished => true
  }

  predicate ToDoAt(cfg: Config, disk: Disk, resume: bool, k: nat, page: nat, i: nat) {
    k < |cfg.keys| && !Skipped(disk, resume, cfg.keys[k]) && InPages(cfg, FirstPage(disk, resume, cfg.keys[k]), page) &&
    i < |cfg.listing(cfg.keys[k], page)|
  }

  ghost predicate ToDo(cfg: Config, disk: Disk, resume: bool, job: nat, url: string) {
    !Held(disk, job, url) &&
    exists k: nat, page: nat, i: nat :: ToDoAt(cfg, disk, resume, k, page, i) &&
      cfg.listing(cfg.keys[k], page)[i].url == url
  }

  /**
   Against the disk that a session found: it is for the right job, the other jobs and all earlier results are
   untouched, and each attempt since is of that job, for a URL the job did not hold, listed in a key
   that was not completed, on no page before the one to start from or past the limit.
   */
  ghost predicate TookOver(cfg: Config, disk: Disk, resume: bool, job: nat, now: Disk) {
    RightJob(disk, resume, job) && disk.results <= now.results &&
    |now.jobs| == (if job == |disk.jobs| then |disk.jobs| + 1 else |disk.jobs|) &&
    (forall j :: 0 <= j < |disk.jobs| && j != job ==> j < |now.jobs| && now.jobs[j] == disk.jobs[j]) &&
    forall other: nat, url :: Covered(now, other, url) && !Covered(disk, other, url) ==>
      other == job && ToDo(cfg, disk, resume, job, url)
  }

  lemma LeftIsToDo(cfg: Config, disk: Disk, resume: bool, url: string)
    requires JobsKnown(disk) && LeftToDo(cfg, Begin(disk, resume).session, url)
    ensures ToDo(cfg, disk, resume, Begin(disk, resume).session.job, url)
  {
    var was := Begin(disk, resume).session;
    BeginTakesOver(disk, resume);
    var k: nat, page: nat, i: nat :| OnList(cfg, was, k, page, i) && cfg.listing(cfg.keys[k], page)[i].url == url;
    assert ToDoAt(cfg, disk, resume, k, page, i);
  }

  lemma SameTookOver(cfg: Config, disk: Disk, resume: bool, now: State)
    requires JobsKnown(disk) && SameSession(cfg, Begin(disk, resume), now)
    ensures TookOver(cfg, disk, resume, now.session.job, now.disk)
    ensures InPlace(cfg, disk, resume, now.session.job, now.session.pos)
  {
    var was := Begin(disk, resume);
    BeginTakesOver(disk, resume);
    forall other: nat, url | Covered(now.disk, other, url) && !Covered(disk, other, url)
      ensures other == was.session.job && ToDo(cfg, disk, resume, was.session.job, url)
    {
      assert !Covered(was.disk, other, url);
      LeftIsToDo(cfg, disk, resume, url);
    }
  }

  /**
   Whatever happened before a session starts, and for as long as it goes on: with `resume` it continues
   the checkpoint's unfinished job, or else the last unfinished one, and otherwise it is a new job. It
   enters no completed key, reads no page before the checkpointed one, and attempts no URL that its job holds.
   */
  lemma SessionContinues(cfg: Config, earlier: seq<Event>, resume: bool, events: seq<Event>)
    requires Run(cfg, INITIAL, earlier).session.Off?
    requires StaysOn(cfg, Begin(Run(cfg, INITIAL, earlier).disk, resume), events)
    ensures var disk := Run(cfg, INITIAL, earlier).disk;
            var now := Run(cfg, Begin(disk, resume), events);
            now.session.On? && TookOver(cfg, disk, resume, now.session.job, now.disk) &&
            InPlace(cfg, disk, resume, now.session.job, now.session.pos)
  {
    var disk := Run(cfg, INITIAL, earlier).disk;
    RunKnown(cfg, INITIAL, earlier);
    BeginTakesOver(disk, resume);
    RunStaysSame(cfg, Begin(disk, resume), events);
    SameTookOver(cfg, disk, resume, Run(cfg, Begin(disk, resume), events));
  }

  // ----- Interruption -----

  /** While a page is worked on, the checkpoint names it; until a session finishes, so is its job unfinished. */
  ghost predicate PlaceSaved(cfg: Config, s: State)
    requires Sound(cfg, s)
  {
    (s.session.On? && !s.session.pos.Finished? ==> s.disk.jobs[s.session.job] != COMPLETED) &&
    (s.session.On? && (s.session.pos.AtDoc? || s.session.pos.Linking?) ==>
       s.disk.checkpoint == Some(Checkpoint(s.session.job, s.session.completed,
                                            Some(Place(cfg.keys[s.session.pos.k], s.session.pos.page)))))
  }

  lemma StepSaves(cfg: Config, s: State, e: Event)
    requires Sound(cfg, s) && PlaceSaved(cfg, s)
    ensures PlaceSaved(cfg, Step(cfg, s, e))
  {
  }

  lemma {:induction false} RunSaves(cfg: Config, events: seq<Event>)
    ensures PlaceSaved(cfg, Run(cfg, INITIAL, events))
    decreases |events|
  {
    if events != [] {
      RunSaves(cfg, events[..|events| - 1]);
      StepSaves(cfg, Run(cfg, INITIAL, events[..|events| - 1]), events[|events| - 1]);
    }
  }

  /** The completed keys that the session started with. */
  function Restored(s: Session): (keys: set<string>)
    requires s.On?
  {
    if s.start.Some? && s.start.value.job == s.job then s.start.value.completedKeys else {}
  }

  /** The keys before the position are completed. */
  predicate PassedKeys(cfg: Config, s: Session) {
    s.On? && !s.pos.Finished? ==> forall i :: 0 <= i < s.pos.k && i < |cfg.keys| ==> KeyText(cfg.keys[i]) in s.completed
  }

  /** Until a session finishes, the keys it has completed, among them all before its position, are in the checkpoint. */
  ghost predicate KeysSaved(cfg: Config, s: State) {
    PassedKeys(cfg, s.session) &&
    (s.session.On? && !s.session.pos.Finished? && s.session.completed != Restored(s.session) ==>
       s.disk.checkpoint.Some? && s.disk.checkpoint.value.job == s.session.job &&
       s.disk.checkpoint.value.completedKeys == s.session.completed)
  }

  lemma {:induction false} RunSavesKeys(cfg: Config, events: seq<Event>)
    ensures KeysSaved(cfg, Run(cfg, INITIAL, events))
    decreases |events|
  {
    if events != [] {
      RunSavesKeys(cfg, events[..|events| - 1]);
      StepSavesKeys(cfg, Run(cfg, INITIAL, events[..|events| - 1]), events[|events| - 1]);
    }
  }

  lemma StepSavesKeys(cfg: Config, s: State, e: Event)
    requires Sound(cfg, s) && KeysSaved(cfg, s)
    ensures KeysSaved(cfg, Step(cfg, s, e))
  {
  }

  /**
   A key that a session has completed stays completed: when the session throws or stops anywhere short
   of its end, with its checkpoint file intact, the next one with `resume` continues the job without these keys.
   */
  lemma CompletedKeysSurvive(cfg: Config, events: seq<Event>, end: Event)
    requires var s := Run(cfg, INITIAL, events).session;
             s.On? && !s.pos.Finished? && s.completed != Restored(s)
    requires end == Stop(false) || end == Throw(false)
    ensures var was := Run(cfg, INITIAL, events);
            var now := Step(cfg, Step(cfg, was, end), Start(true)).session;
            now.On? && now.job == was.session.job && now.completed == was.session.completed &&
            forall i :: 0 <= i < was.session.pos.k && i < |cfg.keys| ==> KeyText(cfg.keys[i]) in now.completed
  {
    RunSaves(cfg, events);
    RunSavesKeys(cfg, events);
  }

  /**
   A session that throws or stops while it works on a page, with its checkpoint file intact, is taken up
   by the next session with `resume`: the same job, the same completed keys, the same page, and
   every URL the job has stored until then.
   */
  lemma InterruptedSessionResumes(cfg: Config, events: seq<Event>, end: Event)
    requires var s := Run(cfg, INITIAL, events).session; s.On? && (s.pos.AtDoc? || s.pos.Linking?)
    requires end == Stop(false) || end == Throw(false)
    ensures var was := Run(cfg, INITIAL, events);
            var now := Step(cfg, Step(cfg, was, end), Start(true)).session;
            now.On? && now.job == was.session.job && now.completed == was.session.completed &&
            StartPage(now, cfg.keys[was.session.pos.k]) == was.session.pos.page &&
            forall url :: url in now.seen <==> Held(was.disk, was.session.job, url)
  {
    var was := Run(cfg, INITIAL, events);
    RunSaves(cfg, events);
    SeenAttempts(was.disk.results, was.session.job);
  }
}
