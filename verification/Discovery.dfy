/**
 The discovery crawl: a session walks categories, pages and documents, writing to the
 database and to a checkpoint file, and may stop at any point. Later sessions resume.
 */
module Discovery {
  import opened Prelude

  // ----- The catalogue -----

  /** A category crawled under one activity filter. */
  datatype Key = Key(category: string, filter: string)
  datatype Doc = Doc(url: string, lawId: string, checksum: string)

  /** `maxPages` 0 means no limit. The listing is fixed while sessions run. */
  datatype Config = Config(keys: seq<Key>, maxPages: nat, listing: (Key, nat) -> seq<Doc>)

  /** `categoryKey`. */
  function KeyText(key: Key): (r: string) {
    key.category + ":" + key.filter
  }

  /** The checkpoint tells the configured keys apart. */
  ghost predicate Distinguished(cfg: Config) {
    forall a, b :: a in cfg.keys && b in cfg.keys && KeyText(a) == KeyText(b) ==> a == b
  }

  /** Category ids without a colon are enough. */
  lemma ColonFreeDistinguished(cfg: Config)
    requires forall key :: key in cfg.keys ==> ':' !in key.category
    ensures Distinguished(cfg)
  {
    forall a, b | a in cfg.keys && b in cfg.keys && KeyText(a) == KeyText(b)
      ensures a == b
    {
      ColonSplits(a.category, a.filter, b.category, b.filter);
    }
  }

  // ----- State -----

  datatype JobStatus = RUNNING | COMPLETED | FAILED | CANCELLED
  datatype Place = Place(key: Key, page: nat)
  datatype Checkpoint = Checkpoint(job: nat, completedKeys: set<string>, current: Option<Place>)
  datatype Result = Result(job: nat, url: string, lawId: string)
  datatype Stored = Stored(lawId: string, checksum: string)

  /**
   What outlives a session. Jobs are numbered in the order they were started. An unreadable
   checkpoint file is None. `failed` records the attempts that threw; it is history only.
   */
  datatype Disk = Disk(
    jobs: seq<JobStatus>, checkpoint: Option<Checkpoint>, results: seq<Result>, documents: seq<Stored>,
    failed: set<(nat, string)>)

  datatype Pos =
    | AtKey(k: nat)
    | AtPage(k: nat, page: nat)
    | AtDoc(k: nat, page: nat, i: nat)
    | Linking(k: nat, page: nat, i: nat)
    | AfterKey(k: nat)
    | Finished

  datatype Session = Off | On(job: nat, start: Option<Checkpoint>, completed: set<string>, seen: set<string>, pos: Pos)
  datatype State = State(disk: Disk, session: Session)

  const INITIAL := State(Disk([], None, [], [], {}), Off)

  /**
   A session starts, takes a step (whose database call may throw), is cancelled, throws, or stops. A
   throw or stop in the middle of a checkpoint write loses the checkpoint.
   */
  datatype Event =
    | Start(resume: bool)
    | Advance(fault: bool)
    | Cancel
    | Throw(checkpointLost: bool)
    | Stop(checkpointLost: bool)

  function Attempts(results: seq<Result>): (r: seq<(nat, string)>)
    ensures |r| == |results| && forall i :: 0 <= i < |r| ==> r[i] == (results[i].job, results[i].url)
  {
    seq(|results|, i requires 0 <= i < |results| => (results[i].job, results[i].url))
  }

  function LawIds(documents: seq<Stored>): (r: seq<string>)
    ensures |r| == |documents| && forall i :: 0 <= i < |r| ==> r[i] == documents[i].lawId
  {
    seq(|documents|, i requires 0 <= i < |documents| => documents[i].lawId)
  }

  // ----- Starting a session -----

  predicate Incomplete(s: JobStatus) {
    s == RUNNING || s == FAILED || s == CANCELLED
  }

  /** The incomplete job that was started last. */
  function LatestIncomplete(jobs: seq<JobStatus>): (r: Option<nat>)
    ensures r.Some? ==> r.value < |jobs| && Incomplete(jobs[r.value])
    ensures r.Some? ==> forall i :: r.value < i < |jobs| ==> !Incomplete(jobs[i])
    ensures r.None? ==> forall i :: 0 <= i < |jobs| ==> !Incomplete(jobs[i])
    decreases |jobs|
  {
    if jobs == [] then None
    else if Incomplete(jobs[|jobs| - 1]) then Some(|jobs| - 1)
    else LatestIncomplete(jobs[..|jobs| - 1])
  }

  /** `startJob`: the job of the checkpoint, else the latest incomplete one, else a new one. */
  function ChooseJob(disk: Disk, resume: bool): (job: nat)
    ensures job <= |disk.jobs| && (job < |disk.jobs| ==> Incomplete(disk.jobs[job]))
  {
    if resume && disk.checkpoint.Some? && disk.checkpoint.value.job < |disk.jobs| &&
       Incomplete(disk.jobs[disk.checkpoint.value.job])
    then disk.checkpoint.value.job
    else
      match if resume then LatestIncomplete(disk.jobs) else None
      case Some(job) => job
      case None => |disk.jobs|
  }

  function SetJob(jobs: seq<JobStatus>, job: nat, status: JobStatus): (r: seq<JobStatus>)
    requires job <= |jobs|
  {
    if job < |jobs| then jobs[job := status] else jobs + [status]
  }

  function SeenUrls(results: seq<Result>, job: nat): (r: set<string>) {
    set i | 0 <= i < |results| && results[i].job == job :: results[i].url
  }

  function Begin(disk: Disk, resume: bool): (r: State) {
    var read := if resume then disk.checkpoint else None;
    var job := ChooseJob(disk, resume);
    var completed := if read.Some? && read.value.job == job then read.value.completedKeys else {};
    State(disk.(jobs := SetJob(disk.jobs, job, RUNNING)),
          On(job, read, completed, SeenUrls(disk.results, job), AtKey(0)))
  }

  // ----- Steps of a session -----

  function StartPage(s: Session, key: Key): (r: nat)
    requires s.On?
  {
    if s.start.Some? && s.start.value.job == s.job && s.start.value.current.Some? &&
       s.start.value.current.value.key == key
    then s.start.value.current.value.page else 1
  }

  predicate PastLimit(cfg: Config, page: nat) {
    cfg.maxPages != 0 && page > cfg.maxPages
  }

  /** The document row of a law is created, or updated in place. */
  function StoreDocument(documents: seq<Stored>, d: Doc): (r: seq<Stored>) {
    if exists i :: 0 <= i < |documents| && documents[i].lawId == d.lawId then
      seq(|documents|, i requires 0 <= i < |documents| =>
        if documents[i].lawId == d.lawId then Stored(d.lawId, d.checksum) else documents[i])
    else documents + [Stored(d.lawId, d.checksum)]
  }

  /** The crawl result of the job for this URL is created unless there is one. */
  function LinkResult(results: seq<Result>, job: nat, d: Doc): (r: seq<Result>) {
    if (job, d.url) in Attempts(results) then results else results + [Result(job, d.url, d.lawId)]
  }

  function At(s: Session, pos: Pos): (r: Session)
    requires s.On?
  {
    s.(pos := pos)
  }

  /** At a document of the current page: skip it, fail, or write its row. */
  function StepDoc(cfg: Config, disk: Disk, s: Session, fault: bool): (r: State)
    requires s.On? && s.pos.AtDoc? && s.pos.k < |cfg.keys|
  {
    var docs := cfg.listing(cfg.keys[s.pos.k], s.pos.page);
    if s.pos.i >= |docs| then
      State(disk, At(s, if docs == [] then AfterKey(s.pos.k) else AtPage(s.pos.k, s.pos.page + 1)))
    else
      var d := docs[s.pos.i];
      var next := AtDoc(s.pos.k, s.pos.page, s.pos.i + 1);
      if d.url in s.seen then State(disk, At(s, next))
      else if fault then State(disk.(failed := disk.failed + {(s.job, d.url)}), At(s, next))
      else State(disk.(documents := StoreDocument(disk.documents, d)), At(s, Linking(s.pos.k, s.pos.page, s.pos.i)))
  }

  /** The document row is written; the crawl result is not. */
  function StepLink(cfg: Config, disk: Disk, s: Session, fault: bool): (r: State)
    requires s.On? && s.pos.Linking? && s.pos.k < |cfg.keys|
    requires s.pos.i < |cfg.listing(cfg.keys[s.pos.k], s.pos.page)|
  {
    var d := cfg.listing(cfg.keys[s.pos.k], s.pos.page)[s.pos.i];
    var next := AtDoc(s.pos.k, s.pos.page, s.pos.i + 1);
    if fault then State(disk.(failed := disk.failed + {(s.job, d.url)}), At(s, next))
    else State(disk.(results := LinkResult(disk.results, s.job, d)), At(s, next).(seen := s.seen + {d.url}))
  }

  predicate PosInRange(cfg: Config, pos: Pos) {
    match pos
    case AtKey(k) => k <= |cfg.keys|
    case AtPage(k, _) => k < |cfg.keys|
    case AtDoc(k, _, _) => k < |cfg.keys|
    case Linking(k, page, i) => k < |cfg.keys| && i < |cfg.listing(cfg.keys[k], page)|
    case AfterKey(k) => k < |cfg.keys|
    case Finished => true
  }

  function StepSession(cfg: Config, disk: Disk, s: Session, fault: bool): (r: State)
    requires s.On? && PosInRange(cfg, s.pos) && s.job < |disk.jobs|
  {
    match s.pos
    case AtKey(k) =>
      if k == |cfg.keys| then State(disk.(jobs := disk.jobs[s.job := COMPLETED]), At(s, Finished))
      else if KeyText(cfg.keys[k]) in s.completed then State(disk, At(s, AtKey(k + 1)))
      else State(disk, At(s, AtPage(k, StartPage(s, cfg.keys[k]))))
    case AtPage(k, page) =>
      if PastLimit(cfg, page) then State(disk, At(s, AfterKey(k)))
      else
        State(disk.(checkpoint := Some(Checkpoint(s.job, s.completed, Some(Place(cfg.keys[k], page))))),
              At(s, AtDoc(k, page, 0)))
    case AtDoc(_, _, _) => StepDoc(cfg, disk, s, fault)
    case Linking(_, _, _) => StepLink(cfg, disk, s, fault)
    case AfterKey(k) =>
      var completed := s.completed + {KeyText(cfg.keys[k])};
      State(disk.(checkpoint := Some(Checkpoint(s.job, completed, None))), At(s, AtKey(k + 1)).(completed := completed))
    case Finished => State(disk.(checkpoint := None), s)
  }

  /** The session refers to an existing job and place. */
  predicate Sound(cfg: Config, s: State) {
    s.session.On? ==> s.session.job < |s.disk.jobs| && PosInRange(cfg, s.session.pos)
  }

  /** A write of the checkpoint that was cut short leaves an unreadable file. */
  function LeaveCheckpoint(disk: Disk, lost: bool): (r: Disk) {
    if lost then disk.(checkpoint := None) else disk
  }

  /** An event that is not possible changes nothing. */
  function Step(cfg: Config, s: State, e: Event): (r: State)
    requires Sound(cfg, s)
  {
    if s.session.Off? then
      if e.Start? then Begin(s.disk, e.resume) else s
    else
      match e
      case Start(_) => s
      case Advance(fault) => StepSession(cfg, s.disk, s.session, fault)
      case Cancel => State(s.disk.(jobs := s.disk.jobs[s.session.job := CANCELLED]), s.session)
      case Throw(lost) =>
        State(LeaveCheckpoint(s.disk, lost).(jobs := s.disk.jobs[s.session.job := FAILED]), Off)
      case Stop(lost) => State(LeaveCheckpoint(s.disk, lost), Off)
  }

  // ----- What is kept -----

  predicate Covered(disk: Disk, job: nat, url: string) {
    (job, url) in Attempts(disk.results) || (job, url) in disk.failed
  }

  predicate DocsCovered(disk: Disk, job: nat, docs: seq<Doc>, n: nat)
    requires n <= |docs|
  {
    forall i :: 0 <= i < n ==> Covered(disk, job, docs[i].url)
  }

  predicate PageCovered(cfg: Config, disk: Disk, job: nat, key: Key, page: nat) {
    DocsCovered(disk, job, cfg.listing(key, page), |cfg.listing(key, page)|)
  }

  /** Every page of the key before `page` is covered. */
  ghost predicate PagesBefore(cfg: Config, disk: Disk, job: nat, key: Key, page: nat) {
    page >= 1 && forall p: nat :: 1 <= p < page ==> PageCovered(cfg, disk, job, key, p)
  }

  /** Pages that a crawl from page 1 reaches: within the limit and not past an empty page. */
  ghost predicate Reached(cfg: Config, key: Key, page: nat) {
    page >= 1 && (cfg.maxPages == 0 || page <= cfg.maxPages) && forall q: nat :: 1 <= q < page ==>
      cfg.listing(key, q) != []
  }

  ghost predicate KeyCovered(cfg: Config, disk: Disk, job: nat, key: Key) {
    forall p: nat :: Reached(cfg, key, p) ==> PageCovered(cfg, disk, job, key, p)
  }

  /** Keys whose texts are listed as completed are covered. */
  ghost predicate TextsCovered(cfg: Config, disk: Disk, job: nat, texts: set<string>) {
    forall key :: key in cfg.keys && KeyText(key) in texts ==> KeyCovered(cfg, disk, job, key)
  }

  ghost predicate CheckpointOk(cfg: Config, disk: Disk, c: Option<Checkpoint>) {
    c.Some? ==>
      TextsCovered(cfg, disk, c.value.job, c.value.completedKeys) &&
      (c.value.current.Some? ==>
         PagesBefore(cfg, disk, c.value.job, c.value.current.value.key, c.value.current.value.page))
  }

  ghost predicate KeysCovered(cfg: Config, disk: Disk, job: nat, n: nat)
    requires n <= |cfg.keys|
  {
    forall k :: 0 <= k < n ==> KeyCovered(cfg, disk, job, cfg.keys[k])
  }

  ghost predicate PosOk(cfg: Config, disk: Disk, job: nat, pos: Pos)
    requires PosInRange(cfg, pos)
  {
    match pos
    case AtKey(k) => KeysCovered(cfg, disk, job, k)
    case AtPage(k, page) => KeysCovered(cfg, disk, job, k) && PagesBefore(cfg, disk, job, cfg.keys[k], page)
    case AtDoc(k, page, i) =>
      KeysCovered(cfg, disk, job, k) && PagesBefore(cfg, disk, job, cfg.keys[k], page) && !PastLimit(cfg, page) &&
      i <= |cfg.listing(cfg.keys[k], page)| && DocsCovered(disk, job, cfg.listing(cfg.keys[k], page), i)
    case Linking(k, page, i) =>
      KeysCovered(cfg, disk, job, k) && PagesBefore(cfg, disk, job, cfg.keys[k], page) && !PastLimit(cfg, page) &&
      DocsCovered(disk, job, cfg.listing(cfg.keys[k], page), i) &&
      var d := cfg.listing(cfg.keys[k], page)[i];
      Stored(d.lawId, d.checksum) in disk.documents
    case AfterKey(k) => KeysCovered(cfg, disk, job, k) && KeyCovered(cfg, disk, job, cfg.keys[k])
    case Finished => KeysCovered(cfg, disk, job, |cfg.keys|)
  }

  ghost predicate SessionOk(cfg: Config, disk: Disk, s: Session) {
    s.On? ==>
      s.job < |disk.jobs| && PosInRange(cfg, s.pos) && CheckpointOk(cfg, disk, s.start) &&
      TextsCovered(cfg, disk, s.job, s.completed) && PosOk(cfg, disk, s.job, s.pos) &&
      forall u :: u in s.seen ==> (s.job, u) in Attempts(disk.results)
  }

  ghost predicate JobsOk(cfg: Config, disk: Disk) {
    forall j :: 0 <= j < |disk.jobs| && disk.jobs[j] == COMPLETED ==> KeysCovered(cfg, disk, j, |cfg.keys|)
  }

  ghost predicate RowsOk(disk: Disk) {
    NoRepeats(Attempts(disk.results)) && NoRepeats(LawIds(disk.documents)) &&
    forall i :: 0 <= i < |disk.results| ==> disk.results[i].lawId in LawIds(disk.documents)
  }

  ghost predicate Inv(cfg: Config, s: State) {
    RowsOk(s.disk) && JobsOk(cfg, s.disk) && CheckpointOk(cfg, s.disk, s.disk.checkpoint) &&
    SessionOk(cfg, s.disk, s.session)
  }

  // ----- Coverage only grows -----

  ghost predicate Grows(a: Disk, b: Disk) {
    (forall x :: x in Attempts(a.results) ==> x in Attempts(b.results)) && a.failed <= b.failed
  }

  lemma DocsGrow(a: Disk, b: Disk, job: nat, docs: seq<Doc>, n: nat)
    requires Grows(a, b) && n <= |docs| && DocsCovered(a, job, docs, n)
    ensures DocsCovered(b, job, docs, n)
  {
    forall i | 0 <= i < n
      ensures Covered(b, job, docs[i].url)
    {
      assert Covered(a, job, docs[i].url);
    }
  }

  lemma PagesGrow(cfg: Config, a: Disk, b: Disk, job: nat, key: Key, page: nat)
    requires Grows(a, b) && PagesBefore(cfg, a, job, key, page)
    ensures PagesBefore(cfg, b, job, key, page)
  {
    forall p: nat | 1 <= p < page
      ensures PageCovered(cfg, b, job, key, p)
    {
      assert PageCovered(cfg, a, job, key, p);
      DocsGrow(a, b, job, cfg.listing(key, p), |cfg.listing(key, p)|);
    }
  }

  lemma KeyGrows(cfg: Config, a: Disk, b: Disk, job: nat, key: Key)
    requires Grows(a, b) && KeyCovered(cfg, a, job, key)
    ensures KeyCovered(cfg, b, job, key)
  {
    forall p: nat | Reached(cfg, key, p)
      ensures PageCovered(cfg, b, job, key, p)
    {
      assert PageCovered(cfg, a, job, key, p);
      DocsGrow(a, b, job, cfg.listing(key, p), |cfg.listing(key, p)|);
    }
  }

  lemma TextsGrow(cfg: Config, a: Disk, b: Disk, job: nat, texts: set<string>)
    requires Grows(a, b) && TextsCovered(cfg, a, job, texts)
    ensures TextsCovered(cfg, b, job, texts)
  {
    forall key | key in cfg.keys && KeyText(key) in texts
      ensures KeyCovered(cfg, b, job, key)
    {
      KeyGrows(cfg, a, b, job, key);
    }
  }

  lemma KeysGrow(cfg: Config, a: Disk, b: Disk, job: nat, n: nat)
    requires Grows(a, b) && n <= |cfg.keys| && KeysCovered(cfg, a, job, n)
    ensures KeysCovered(cfg, b, job, n)
  {
    forall k | 0 <= k < n
      ensures KeyCovered(cfg, b, job, cfg.keys[k])
    {
      KeyGrows(cfg, a, b, job, cfg.keys[k]);
    }
  }

  lemma CheckpointGrows(cfg: Config, a: Disk, b: Disk, c: Option<Checkpoint>)
    requires Grows(a, b) && CheckpointOk(cfg, a, c)
    ensures CheckpointOk(cfg, b, c)
  {
    if c.Some? {
      TextsGrow(cfg, a, b, c.value.job, c.value.completedKeys);
      if c.value.current.Some? {
        PagesGrow(cfg, a, b, c.value.job, c.value.current.value.key, c.value.current.value.page);
      }
    }
  }

  lemma JobsGrow(cfg: Config, a: Disk, b: Disk)
    requires Grows(a, b) && JobsOk(cfg, a)
    requires forall j :: 0 <= j < |b.jobs| && b.jobs[j] == COMPLETED ==> j < |a.jobs| && a.jobs[j] == COMPLETED
    ensures JobsOk(cfg, b)
  {
    forall j | 0 <= j < |b.jobs| && b.jobs[j] == COMPLETED
      ensures KeysCovered(cfg, b, j, |cfg.keys|)
    {
      KeysGrow(cfg, a, b, j, |cfg.keys|);
    }
  }

  /** Everything on disk stays right when coverage grows and no job becomes completed. */
  lemma DiskGrows(cfg: Config, a: Disk, b: Disk)
    requires Grows(a, b) && JobsOk(cfg, a) && CheckpointOk(cfg, a, a.checkpoint) && a.checkpoint == b.checkpoint
    requires a.jobs == b.jobs
    ensures JobsOk(cfg, b) && CheckpointOk(cfg, b, b.checkpoint)
  {
    JobsGrow(cfg, a, b);
    CheckpointGrows(cfg, a, b, a.checkpoint);
  }

  /** The parts of a session that do not depend on where it is. */
  lemma SessionGrows(cfg: Config, a: Disk, b: Disk, s: Session)
    requires Grows(a, b) && s.On? && SessionOk(cfg, a, s)
    ensures CheckpointOk(cfg, b, s.start) && TextsCovered(cfg, b, s.job, s.completed)
    ensures forall u :: u in s.seen ==> (s.job, u) in Attempts(b.results)
  {
    CheckpointGrows(cfg, a, b, s.start);
    TextsGrow(cfg, a, b, s.job, s.completed);
  }

  // ----- Ends of a key -----

  lemma LimitCoversKey(cfg: Config, disk: Disk, job: nat, key: Key, page: nat)
    requires PagesBefore(cfg, disk, job, key, page) && PastLimit(cfg, page)
    ensures KeyCovered(cfg, disk, job, key)
  {
  }

  lemma EmptyPageCoversKey(cfg: Config, disk: Disk, job: nat, key: Key, page: nat)
    requires PagesBefore(cfg, disk, job, key, page) && cfg.listing(key, page) == []
    ensures KeyCovered(cfg, disk, job, key)
  {
    forall p: nat | Reached(cfg, key, p)
      ensures PageCovered(cfg, disk, job, key, p)
    {
      assert p <= page;
    }
  }

  lemma NextPage(cfg: Config, disk: Disk, job: nat, key: Key, page: nat)
    requires PagesBefore(cfg, disk, job, key, page) && PageCovered(cfg, disk, job, key, page)
    ensures PagesBefore(cfg, disk, job, key, page + 1)
  {
    forall p: nat | 1 <= p < page + 1
      ensures PageCovered(cfg, disk, job, key, p)
    {
      assert p < page || p == page;
    }
  }

  // ----- Rows -----

  lemma LinkAttempts(results: seq<Result>, job: nat, d: Doc)
    ensures forall x :: x in Attempts(LinkResult(results, job, d)) <==> x in Attempts(results) || x == (job, d.url)
    ensures NoRepeats(Attempts(results)) ==> NoRepeats(Attempts(LinkResult(results, job, d)))
  {
    var after := LinkResult(results, job, d);
    if (job, d.url) !in Attempts(results) {
      assert Attempts(after) == Attempts(results) + [(job, d.url)];
    }
  }

  lemma StoreLaws(documents: seq<Stored>, d: Doc)
    ensures forall x :: x in LawIds(StoreDocument(documents, d)) <==> x in LawIds(documents) || x == d.lawId
    ensures NoRepeats(LawIds(documents)) ==> NoRepeats(LawIds(StoreDocument(documents, d)))
  {
    var after := StoreDocument(documents, d);
    if exists i :: 0 <= i < |documents| && documents[i].lawId == d.lawId {
      var i :| 0 <= i < |documents| && documents[i].lawId == d.lawId;
      assert LawIds(after) == LawIds(documents);
      assert LawIds(documents)[i] == d.lawId;
    } else {
      assert LawIds(after) == LawIds(documents) + [d.lawId];
    }
  }

  /**
   Afterwards the law has a row, every row of it carries the document's checksum, and the rows of
   other laws are as they were; a row is added only for a law that had none.
   */
  lemma StoreMeaning(documents: seq<Stored>, d: Doc)
    ensures var after := StoreDocument(documents, d);
            Stored(d.lawId, d.checksum) in after &&
            (forall s :: s in after && s.lawId == d.lawId ==> s.checksum == d.checksum) &&
            (forall i :: 0 <= i < |documents| && documents[i].lawId != d.lawId ==>
               i < |after| && after[i] == documents[i]) &&
            |after| == |documents| + if d.lawId in LawIds(documents) then 0 else 1
  {
    var after := StoreDocument(documents, d);
    if d.lawId in LawIds(documents) {
      var i :| 0 <= i < |documents| && LawIds(documents)[i] == d.lawId;
      assert after[i] == Stored(d.lawId, d.checksum);
    } else {
      assert forall i :: 0 <= i < |documents| ==> LawIds(documents)[i] == documents[i].lawId;
      assert after == documents + [Stored(d.lawId, d.checksum)];
    }
  }

  lemma StoredLaw(documents: seq<Stored>, s: Stored)
    requires s in documents
    ensures s.lawId in LawIds(documents)
  {
    var i :| 0 <= i < |documents| && documents[i] == s;
    assert LawIds(documents)[i] == s.lawId;
  }

  lemma SeenAttempts(results: seq<Result>, job: nat)
    ensures forall u :: u in SeenUrls(results, job) <==> (job, u) in Attempts(results)
  {
    forall u | (job, u) in Attempts(results)
      ensures u in SeenUrls(results, job)
    {
      var i :| 0 <= i < |results| && Attempts(results)[i] == (job, u);
      assert results[i].job == job && results[i].url == u;
    }
    forall u | u in SeenUrls(results, job)
      ensures (job, u) in Attempts(results)
    {
      var i :| 0 <= i < |results| && results[i].job == job && results[i].url == u;
      assert Attempts(results)[i] == (job, u);
    }
  }

  // ----- Every step keeps the invariant -----

  lemma BeginKeepsInv(cfg: Config, disk: Disk, resume: bool)
    requires Inv(cfg, State(disk, Off))
    ensures Inv(cfg, Begin(disk, resume))
  {
    var s := Begin(disk, resume);
    JobsGrow(cfg, disk, s.disk);
    CheckpointGrows(cfg, disk, s.disk, disk.checkpoint);
    SeenAttempts(disk.results, s.session.job);
    assert TextsCovered(cfg, s.disk, s.session.job, s.session.completed);
  }

  lemma StepDocKeepsInv(cfg: Config, disk: Disk, s: Session, fault: bool)
    requires Inv(cfg, State(disk, s)) && s.On? && s.pos.AtDoc?
    ensures Inv(cfg, StepDoc(cfg, disk, s, fault))
  {
    var key, page, i := cfg.keys[s.pos.k], s.pos.page, s.pos.i;
    var docs := cfg.listing(key, page);
    var after := StepDoc(cfg, disk, s, fault).disk;
    if i >= |docs| {
      if docs == [] {
        EmptyPageCoversKey(cfg, disk, s.job, key, page);
      } else {
        NextPage(cfg, disk, s.job, key, page);
      }
    } else {
      StoreLaws(disk.documents, docs[i]);
      StoreMeaning(disk.documents, docs[i]);
      DiskGrows(cfg, disk, after);
      SessionGrows(cfg, disk, after, s);
      KeysGrow(cfg, disk, after, s.job, s.pos.k);
      PagesGrow(cfg, disk, after, s.job, key, page);
      DocsGrow(disk, after, s.job, docs, i);
    }
  }

  lemma StepLinkKeepsInv(cfg: Config, disk: Disk, s: Session, fault: bool)
    requires Inv(cfg, State(disk, s)) && s.On? && s.pos.Linking?
    ensures Inv(cfg, StepLink(cfg, disk, s, fault))
  {
    var key, page, i := cfg.keys[s.pos.k], s.pos.page, s.pos.i;
    var docs := cfg.listing(key, page);
    var after := StepLink(cfg, disk, s, fault).disk;
    LinkAttempts(disk.results, s.job, docs[i]);
    StoredLaw(disk.documents, Stored(docs[i].lawId, docs[i].checksum));
    DiskGrows(cfg, disk, after);
    SessionGrows(cfg, disk, after, s);
    KeysGrow(cfg, disk, after, s.job, s.pos.k);
    PagesGrow(cfg, disk, after, s.job, key, page);
    DocsGrow(disk, after, s.job, docs, i);
  }

  lemma FinishKeyKeepsInv(cfg: Config, disk: Disk, s: Session)
    requires Distinguished(cfg) && Inv(cfg, State(disk, s)) && s.On? && s.pos.AfterKey?
    ensures Inv(cfg, StepSession(cfg, disk, s, false))
  {
    var key := cfg.keys[s.pos.k];
    var after := StepSession(cfg, disk, s, false);
    assert TextsCovered(cfg, disk, s.job, s.completed + {KeyText(key)});
    JobsGrow(cfg, disk, after.disk);
    SessionGrows(cfg, disk, after.disk, s);
    KeysGrow(cfg, disk, after.disk, s.job, s.pos.k + 1);
    TextsGrow(cfg, disk, after.disk, s.job, s.completed + {KeyText(key)});
  }

  lemma CompleteKeepsInv(cfg: Config, disk: Disk, s: Session)
    requires Inv(cfg, State(disk, s)) && s.On? && s.pos == AtKey(|cfg.keys|)
    ensures Inv(cfg, StepSession(cfg, disk, s, false))
  {
    var after := StepSession(cfg, disk, s, false).disk;
    CheckpointGrows(cfg, disk, after, disk.checkpoint);
    SessionGrows(cfg, disk, after, s);
    KeysGrow(cfg, disk, after, s.job, |cfg.keys|);
    forall j | 0 <= j < |after.jobs| && after.jobs[j] == COMPLETED
      ensures KeysCovered(cfg, after, j, |cfg.keys|)
    {
      if j != s.job {
        KeysGrow(cfg, disk, after, j, |cfg.keys|);
      }
    }
  }

  lemma EnterPageKeepsInv(cfg: Config, disk: Disk, s: Session)
    requires Inv(cfg, State(disk, s)) && s.On? && s.pos.AtPage?
    ensures Inv(cfg, StepSession(cfg, disk, s, false))
  {
    var key, page := cfg.keys[s.pos.k], s.pos.page;
    var after := StepSession(cfg, disk, s, false).disk;
    if PastLimit(cfg, page) {
      LimitCoversKey(cfg, disk, s.job, key, page);
    } else {
      JobsGrow(cfg, disk, after);
      SessionGrows(cfg, disk, after, s);
      KeysGrow(cfg, disk, after, s.job, s.pos.k);
      PagesGrow(cfg, disk, after, s.job, key, page);
    }
  }

  lemma EnterKeyKeepsInv(cfg: Config, disk: Disk, s: Session)
    requires Inv(cfg, State(disk, s)) && s.On? && s.pos.AtKey? && s.pos.k < |cfg.keys|
    ensures Inv(cfg, StepSession(cfg, disk, s, false))
  {
  }

  lemma AdvanceKeepsInv(cfg: Config, s: State, fault: bool)
    requires Distinguished(cfg) && Inv(cfg, s) && s.session.On?
    ensures Inv(cfg, StepSession(cfg, s.disk, s.session, fault))
  {
    match s.session.pos {
      case AtKey(k) =>
        if k == |cfg.keys| {
          CompleteKeepsInv(cfg, s.disk, s.session);
        } else {
          EnterKeyKeepsInv(cfg, s.disk, s.session);
        }
      case AtPage(_, _) => EnterPageKeepsInv(cfg, s.disk, s.session);
      case AtDoc(_, _, _) => StepDocKeepsInv(cfg, s.disk, s.session, fault);
      case Linking(_, _, _) => StepLinkKeepsInv(cfg, s.disk, s.session, fault);
      case AfterKey(_) => FinishKeyKeepsInv(cfg, s.disk, s.session);
      case Finished => SameRowsKeepInv(cfg, s.disk, s.disk.(checkpoint := None), s.session);
    }
  }

  /** Losing the checkpoint or marking the own job unfinished does no harm. */
  lemma SameRowsKeepInv(cfg: Config, a: Disk, b: Disk, s: Session)
    requires Inv(cfg, State(a, s)) && b.results == a.results && b.documents == a.documents && b.failed == a.failed
    requires b.checkpoint.None? || b.checkpoint == a.checkpoint
    requires |b.jobs| == |a.jobs| && forall j :: 0 <= j < |b.jobs| && b.jobs[j] == COMPLETED ==> a.jobs[j] == COMPLETED
    ensures Inv(cfg, State(b, s)) && Inv(cfg, State(b, Off))
  {
    JobsGrow(cfg, a, b);
    CheckpointGrows(cfg, a, b, a.checkpoint);
    if s.On? {
      SessionGrows(cfg, a, b, s);
      PosGrows(cfg, a, b, s.job, s.pos);
    }
  }

  lemma PosGrows(cfg: Config, a: Disk, b: Disk, job: nat, pos: Pos)
    requires Grows(a, b) && a.documents == b.documents && PosInRange(cfg, pos) && PosOk(cfg, a, job, pos)
    ensures PosOk(cfg, b, job, pos)
  {
    match pos {
      case AtKey(k) => KeysGrow(cfg, a, b, job, k);
      case AtPage(k, page) =>
        KeysGrow(cfg, a, b, job, k);
        PagesGrow(cfg, a, b, job, cfg.keys[k], page);
      case AtDoc(k, page, i) =>
        KeysGrow(cfg, a, b, job, k);
        PagesGrow(cfg, a, b, job, cfg.keys[k], page);
        DocsGrow(a, b, job, cfg.listing(cfg.keys[k], page), i);
      case Linking(k, page, i) =>
        KeysGrow(cfg, a, b, job, k);
        PagesGrow(cfg, a, b, job, cfg.keys[k], page);
        DocsGrow(a, b, job, cfg.listing(cfg.keys[k], page), i);
      case AfterKey(k) =>
        KeysGrow(cfg, a, b, job, k);
        KeyGrows(cfg, a, b, job, cfg.keys[k]);
      case Finished => KeysGrow(cfg, a, b, job, |cfg.keys|);
    }
  }

  lemma StepKeepsInv(cfg: Config, s: State, e: Event)
    requires Distinguished(cfg) && Inv(cfg, s)
    ensures Inv(cfg, Step(cfg, s, e))
  {
    if s.session.Off? {
      if e.Start? {
        BeginKeepsInv(cfg, s.disk, e.resume);
      }
    } else {
      match e {
        case Start(_) =>
        case Advance(fault) => AdvanceKeepsInv(cfg, s, fault);
        case Cancel => SameRowsKeepInv(cfg, s.disk, Step(cfg, s, e).disk, s.session);
        case Throw(_) => SameRowsKeepInv(cfg, s.disk, Step(cfg, s, e).disk, s.session);
        case Stop(_) => SameRowsKeepInv(cfg, s.disk, Step(cfg, s, e).disk, s.session);
      }
    }
  }

  // ----- Runs -----

  /** The state after some events: sessions start, advance, are cancelled, throw or crash, in any order. */
  function Run(cfg: Config, s: State, events: seq<Event>): (r: State)
    requires Sound(cfg, s)
    ensures Sound(cfg, r)
    decreases |events|
  {
    if events == [] then s
    else Step(cfg, Run(cfg, s, events[..|events| - 1]), events[|events| - 1])
  }

  lemma {:induction false} RunKeepsInv(cfg: Config, s: State, events: seq<Event>)
    requires Distinguished(cfg) && Inv(cfg, s)
    ensures Inv(cfg, Run(cfg, s, events))
    decreases |events|
  {
    if events != [] {
      RunKeepsInv(cfg, s, events[..|events| - 1]);
      StepKeepsInv(cfg, Run(cfg, s, events[..|events| - 1]), events[|events| - 1]);
    }
  }

  /**
   After any number of sessions, stopped and resumed anywhere: when a job is COMPLETED, every
   document on every page a full crawl reaches has a crawl result for its URL in that job, or
   an attempt to store it in that job failed.
   */
  lemma CompletedJobsMissNothing(cfg: Config, events: seq<Event>, job: nat, key: Key, page: nat, d: Doc)
    requires Distinguished(cfg)
    requires var disk := Run(cfg, INITIAL, events).disk; job < |disk.jobs| && disk.jobs[job] == COMPLETED
    requires key in cfg.keys && Reached(cfg, key, page) && d in cfg.listing(key, page)
    ensures Covered(Run(cfg, INITIAL, events).disk, job, d.url)
  {
    RunKeepsInv(cfg, INITIAL, events);
    var disk := Run(cfg, INITIAL, events).disk;
    var k :| 0 <= k < |cfg.keys| && cfg.keys[k] == key;
    assert KeyCovered(cfg, disk, job, cfg.keys[k]);
    var i :| 0 <= i < |cfg.listing(key, page)| && cfg.listing(key, page)[i] == d;
    assert PageCovered(cfg, disk, job, key, page);
    assert Covered(disk, job, cfg.listing(key, page)[i].url);
  }

  /** No job holds two results for one URL, no law has two documents, and results point at stored laws. */
  lemma RowsStayUnique(cfg: Config, events: seq<Event>)
    requires Distinguished(cfg)
    ensures RowsOk(Run(cfg, INITIAL, events).disk)
  {
    RunKeepsInv(cfg, INITIAL, events);
  }

  // ----- Rows come from the catalogue -----

  /** Some page of a configured key lists the document. */
  ghost predicate Listed(cfg: Config, d: Doc) {
    exists k: nat, page: nat :: k < |cfg.keys| && d in cfg.listing(cfg.keys[k], page)
  }

  ghost predicate ResultListed(cfg: Config, r: Result) {
    exists d :: Listed(cfg, d) && d.url == r.url && d.lawId == r.lawId
  }

  ghost predicate RowListed(cfg: Config, s: Stored) {
    exists d :: Listed(cfg, d) && s == Stored(d.lawId, d.checksum)
  }

  /** Every result joins a URL and a law, and every row a law and a checksum, as some listed document does. */
  ghost predicate FromCatalogue(cfg: Config, disk: Disk) {
    (forall r :: r in disk.results ==> ResultListed(cfg, r)) && (forall s :: s in disk.documents ==> RowListed(cfg, s))
  }

  lemma StoreFromCatalogue(cfg: Config, documents: seq<Stored>, d: Doc)
    requires Listed(cfg, d) && forall s :: s in documents ==> RowListed(cfg, s)
    ensures forall s :: s in StoreDocument(documents, d) ==> RowListed(cfg, s)
  {
    assert RowListed(cfg, Stored(d.lawId, d.checksum));
    forall s | s in StoreDocument(documents, d)
      ensures s in documents || s == Stored(d.lawId, d.checksum)
    {
    }
  }

  lemma StepFromCatalogue(cfg: Config, s: State, e: Event)
    requires Sound(cfg, s) && FromCatalogue(cfg, s.disk)
    ensures FromCatalogue(cfg, Step(cfg, s, e).disk)
  {
    if s.session.On? && (s.session.pos.AtDoc? || s.session.pos.Linking?) {
      var docs := cfg.listing(cfg.keys[s.session.pos.k], s.session.pos.page);
      if s.session.pos.i < |docs| {
        var d := docs[s.session.pos.i];
        assert d in docs && Listed(cfg, d);
        StoreFromCatalogue(cfg, s.disk.documents, d);
        assert ResultListed(cfg, Result(s.session.job, d.url, d.lawId));
      }
    }
  }

  /** In every run crawl results and document rows hold together what the catalogue lists together. */
  lemma {:induction false} RunFromCatalogue(cfg: Config, events: seq<Event>)
    ensures FromCatalogue(cfg, Run(cfg, INITIAL, events).disk)
    decreases |events|
  {
    if events != [] {
      RunFromCatalogue(cfg, events[..|events| - 1]);
      StepFromCatalogue(cfg, Run(cfg, INITIAL, events[..|events| - 1]), events[|events| - 1]);
    }
  }
}
