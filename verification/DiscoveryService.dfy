/**
 The loops of one discovery session over the mutable database rows and checkpoint file: a
 session that is not interrupted is a run of the crawl's transitions that completes its job.
 */
module DiscoveryService {
  import opened Prelude
  import opened Discovery
  import opened DiscoveryResume

  lemma RunSnoc(cfg: Config, s: State, events: seq<Event>, e: Event)
    requires Sound(cfg, s)
    ensures Run(cfg, s, events + [e]) == Step(cfg, Run(cfg, s, events), e)
  {
    assert (events + [e])[..|events|] == events;
  }

  /** A session that has run to its end. */
  lemma RunToEnd(cfg: Config, disk: Disk, resume: bool, events: seq<Event>, now: State)
    requires Distinguished(cfg) && Inv(cfg, State(disk, Off)) && JobsKnown(disk)
    requires Run(cfg, State(disk, Off), events) == now && SameSession(cfg, Begin(disk, resume), now)
    ensures Inv(cfg, now) && JobsKnown(now.disk)
    ensures TookOver(cfg, disk, resume, now.session.job, now.disk)
  {
    RunKeepsInv(cfg, State(disk, Off), events);
    RunKnown(cfg, State(disk, Off), events);
    SameTookOver(cfg, disk, resume, now);
  }

  class Crawl {
    const cfg: Config
    /** Which database calls throw: by URL, and whether the document row is already written. */
    const throws: (string, bool) -> bool

    var jobs: seq<JobStatus>
    var checkpoint: Option<Checkpoint>
    var results: seq<Result>
    var documents: seq<Stored>

    var job: nat
    var start: Option<Checkpoint>
    var completed: set<string>
    var seenUrls: set<string>

    ghost var failed: set<(nat, string)>
    ghost var origin: State
    ghost var begun: State
    ghost var events: seq<Event>

    constructor (cfg: Config, throws: (string, bool) -> bool)
      ensures this.cfg == cfg && this.throws == throws && OnDisk() == INITIAL.disk
    {
      this.cfg, this.throws := cfg, throws;
      jobs, checkpoint, results, documents, failed := [], None, [], [], {};
      job, start, completed, seenUrls := 0, None, {}, {};
      origin, begun, events := INITIAL, INITIAL, [];
    }

    ghost function OnDisk(): (r: Disk)
      reads this
    {
      Disk(jobs, checkpoint, results, documents, failed)
    }

    ghost function Now(pos: Pos): (r: State)
      reads this
    {
      State(OnDisk(), On(job, start, completed, seenUrls, pos))
    }

    /** The fields are what the recorded events lead to, with the session that has begun at `pos`. */
    ghost predicate Follows(pos: Pos)
      reads this
    {
      Sound(cfg, origin) && Run(cfg, origin, events) == Now(pos) && begun.session.On? &&
      SameSession(cfg, begun, Now(pos))
    }

    /** The last assignments were the step for `e`. */
    ghost method Record(was: State, e: Event, pos: Pos)
      requires Sound(cfg, origin) && Run(cfg, origin, events) == was && Step(cfg, was, e) == Now(pos)
      requires begun.session.On? && SameSession(cfg, begun, was)
      modifies this`events
      ensures Follows(pos)
    {
      RunSnoc(cfg, origin, events, e);
      StepStaysSame(cfg, begun, was, e);
      events := events + [e];
    }

    /** One document of the page: skipped when seen, else its two rows are written. */
    method StoreDiscovered(k: nat, page: nat, i: nat)
      requires Follows(AtDoc(k, page, i)) && k < |cfg.keys| && i < |cfg.listing(cfg.keys[k], page)|
      modifies this`results, this`documents, this`seenUrls, this`failed, this`events
      ensures Follows(AtDoc(k, page, i + 1))
    {
      var d := cfg.listing(cfg.keys[k], page)[i];
      ghost var was := Now(AtDoc(k, page, i));
      if d.url in seenUrls {
        Record(was, Advance(false), AtDoc(k, page, i + 1));
        return;
      }
      if throws(d.url, false) {
        failed := failed + {(job, d.url)};
        Record(was, Advance(true), AtDoc(k, page, i + 1));
        return;
      }
      documents := StoreDocument(documents, d);
      Record(was, Advance(false), Linking(k, page, i));
      was := Now(Linking(k, page, i));
      if throws(d.url, true) {
        failed := failed + {(job, d.url)};
        Record(was, Advance(true), AtDoc(k, page, i + 1));
        return;
      }
      results := LinkResult(results, job, d);
      seenUrls := seenUrls + {d.url};
      Record(was, Advance(false), AtDoc(k, page, i + 1));
    }

    /** The page callback: checkpoint first, then every document. */
    method OnPage(k: nat, page: nat)
      requires Follows(AtPage(k, page)) && k < |cfg.keys| && !PastLimit(cfg, page)
      modifies this`checkpoint, this`results, this`documents, this`seenUrls, this`failed, this`events
      ensures Follows(AtDoc(k, page, |cfg.listing(cfg.keys[k], page)|))
    {
      ghost var was := Now(AtPage(k, page));
      checkpoint := Some(Checkpoint(job, completed, Some(Place(cfg.keys[k], page))));
      Record(was, Advance(false), AtDoc(k, page, 0));
      for i := 0 to |cfg.listing(cfg.keys[k], page)|
        invariant Follows(AtDoc(k, page, i))
      {
        StoreDiscovered(k, page, i);
      }
    }

    /** The page loop; without a page limit, `lastPage` bounds the pages that list anything. */
    method CrawlCategoryPages(k: nat, startPage: nat, ghost lastPage: nat)
      requires Follows(AtPage(k, startPage)) && k < |cfg.keys|
      requires cfg.maxPages == 0 ==> forall p: nat :: p > lastPage ==> cfg.listing(cfg.keys[k], p) == []
      modifies this`checkpoint, this`results, this`documents, this`seenUrls, this`failed, this`events
      ensures Follows(AfterKey(k))
    {
      var page := startPage;
      while true
        invariant Follows(AtPage(k, page))
        decreases (if cfg.maxPages == 0 then lastPage else cfg.maxPages) + 1 - page
      {
        ghost var was;
        if PastLimit(cfg, page) {
          was := Now(AtPage(k, page));
          Record(was, Advance(false), AfterKey(k));
          return;
        }
        OnPage(k, page);
        var docs := cfg.listing(cfg.keys[k], page);
        was := Now(AtDoc(k, page, |docs|));
        if docs == [] {
          Record(was, Advance(false), AfterKey(k));
          return;
        }
        Record(was, Advance(false), AtPage(k, page + 1));
        page := page + 1;
      }
    }

    /** `startJob` and the state that the session restores. */
    method StartSession(resume: bool)
      modifies this
      ensures Follows(AtKey(0)) && job < |jobs|
      ensures origin == State(old(OnDisk()), Off) && begun == Begin(old(OnDisk()), resume)
    {
      origin, events := State(OnDisk(), Off), [Start(resume)];
      begun := Begin(OnDisk(), resume);
      start := if resume then checkpoint else None;
      job := ChooseJob(Disk(jobs, checkpoint, results, documents, {}), resume);
      completed := if start.Some? && start.value.job == job then start.value.completedKeys else {};
      seenUrls := SeenUrls(results, job);
      jobs := SetJob(jobs, job, RUNNING);
      RunSnoc(cfg, origin, [], Start(resume));
      SameAtFirst(cfg, begun);
    }

    /** One category under one filter: skipped when completed, else crawled from its start page. */
    method CrawlKey(k: nat, ghost lastPage: nat)
      requires Follows(AtKey(k)) && k < |cfg.keys|
      requires cfg.maxPages == 0 ==> forall p: nat :: p > lastPage ==> cfg.listing(cfg.keys[k], p) == []
      modifies this`checkpoint, this`results, this`documents, this`completed, this`seenUrls, this`failed, this`events
      ensures Follows(AtKey(k + 1))
    {
      ghost var was := Now(AtKey(k));
      var key := cfg.keys[k];
      if KeyText(key) in completed {
        Record(was, Advance(false), AtKey(k + 1));
        return;
      }
      var startPage := if start.Some? && start.value.job == job && start.value.current.Some? &&
                          start.value.current.value.key == key
        then start.value.current.value.page else 1;
      Record(was, Advance(false), AtPage(k, startPage));
      CrawlCategoryPages(k, startPage, lastPage);
      was := Now(AfterKey(k));
      completed := completed + {KeyText(key)};
      checkpoint := Some(Checkpoint(job, completed, None));
      Record(was, Advance(false), AtKey(k + 1));
    }

    /**
     A session that runs to its end, on top of whatever earlier sessions left: it took over the
     right job with what that job had done, the job is COMPLETED and misses nothing, and the checkpoint is cleared.
     */
    method RunDiscovery(resume: bool, ghost lastPage: nat)
      requires Distinguished(cfg) && Inv(cfg, State(OnDisk(), Off)) && JobsKnown(OnDisk())
      requires cfg.maxPages == 0 ==> forall key, p: nat :: key in cfg.keys && p > lastPage ==> cfg.listing(key, p) == []
      modifies this
      ensures Inv(cfg, State(OnDisk(), Off)) && JobsKnown(OnDisk()) && checkpoint.None?
      ensures TookOver(cfg, old(OnDisk()), resume, job, OnDisk())
      ensures job < |jobs| && jobs[job] == COMPLETED && KeysCovered(cfg, OnDisk(), job, |cfg.keys|)
    {
      StartSession(resume);
      for k := 0 to |cfg.keys|
        invariant Follows(AtKey(k)) && origin == State(old(OnDisk()), Off) && begun == Begin(old(OnDisk()), resume)
      {
        CrawlKey(k, lastPage);
      }
      ghost var was := Now(AtKey(|cfg.keys|));
      jobs := jobs[job := COMPLETED];
      Record(was, Advance(false), Finished);
      was := Now(Finished);
      checkpoint := None;
      Record(was, Advance(false), Finished);
      RunToEnd(cfg, old(OnDisk()), resume, events, Now(Finished));
    }
  }
}
