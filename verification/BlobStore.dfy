/**
 The content-addressed blob store and the archive catalogue under interleaved writers: every
 system call of a put is one step, and steps of different puts mix in any order.
 */
module BlobStore {
  import opened Prelude

  type Bytes = seq<bv8>

  /** Distinct contents have distinct checksums; a checksum is also the key of its file. */
  ghost predicate CollisionFree(hash: Bytes -> string) {
    forall a, b :: hash(a) == hash(b) ==> a == b
  }

  /**
   Where a put is: before its exclusive open; writing, with so many bytes in the file; synced;
   checking an existing file by size, then by content; returned; about to add the catalogue
   row; finished; or gone, by an error or a crash.
   */
  datatype Pc =
    | Opening | Writing(written: nat) | Closing | Statting | Reading
    | Returned(reused: bool) | Cataloguing(reused: bool) | Finished(reused: bool) | Gone

  datatype Put = Put(bytes: Bytes, pc: Pc)

  /** `synced` is history: the keys of files that are there and whose creator got past its sync. */
  datatype State = State(files: map<string, Bytes>, synced: set<string>, puts: seq<Put>, catalog: map<string, nat>)

  const EMPTY := State(map[], {}, [], map[])

  /**
   A put begins; a put takes its next step (while writing, `upTo` says how far it gets); a write
   or sync fails; a close fails; a process dies; the power fails. A power failure cuts unsynced
   files, and drops directory entries, also of synced files: only file handles are synced.
   */
  datatype Event =
    | Begin(bytes: Bytes)
    | Go(w: nat, upTo: nat)
    | FailWrite(w: nat)
    | FailClose(w: nat)
    | Crash(w: nat)
    | PowerLoss(kept: map<string, nat>, dropped: set<string>)

  function Move(st: State, w: nat, pc: Pc): (r: State)
    requires w < |st.puts|
  {
    st.(puts := st.puts[w := st.puts[w].(pc := pc)])
  }

  /** The next system call of put `w` succeeds. */
  function StepPut(hash: Bytes -> string, st: State, w: nat, upTo: nat): (r: State)
    requires w < |st.puts|
  {
    var put := st.puts[w];
    var key := hash(put.bytes);
    match put.pc
    case Opening =>
      if key in st.files then Move(st, w, Statting)
      else Move(st, w, Writing(0)).(files := st.files[key := []])
    case Writing(n) =>
      if n < |put.bytes| then
        if n < upTo <= |put.bytes| then Move(st, w, Writing(upTo)).(files := st.files[key := put.bytes[..upTo]]) else st
      else Move(st, w, Closing).(synced := st.synced + {key})
    case Closing => Move(st, w, Returned(false))
    case Statting => Move(st, w, if key in st.files && |st.files[key]| == |put.bytes| then Reading else Gone)
    case Reading => Move(st, w, if key in st.files && hash(st.files[key]) == key then Returned(true) else Gone)
    case Returned(reused) =>
      if key in st.catalog then Move(st, w, if st.catalog[key] == |put.bytes| then Finished(true) else Gone)
      else Move(st, w, Cataloguing(reused))
    case Cataloguing(reused) =>
      if key in st.catalog then Move(st, w, Gone)
      else Move(st, w, Finished(reused)).(catalog := st.catalog[key := |put.bytes|])
    case Finished(_) => st
    case Gone => st
  }

  function AllGone(puts: seq<Put>): (r: seq<Put>)
    ensures |r| == |puts| && forall i :: 0 <= i < |r| ==> r[i] == puts[i].(pc := Gone)
  {
    seq(|puts|, i requires 0 <= i < |puts| => puts[i].(pc := Gone))
  }

  function Cut(files: map<string, Bytes>, synced: set<string>, kept: map<string, nat>): (r: map<string, Bytes>) {
    map k | k in files :: if k !in synced && k in kept && kept[k] < |files[k]| then files[k][..kept[k]] else files[k]
  }

  function Step(hash: Bytes -> string, st: State, e: Event): (r: State) {
    match e
    case Begin(bytes) => st.(puts := st.puts + [Put(bytes, Opening)])
    case Go(w, upTo) => if w < |st.puts| then StepPut(hash, st, w, upTo) else st
    case FailWrite(w) =>
      if w < |st.puts| && st.puts[w].pc.Writing?
      then Move(st, w, Gone).(files := st.files - {hash(st.puts[w].bytes)})
      else st
    case FailClose(w) => if w < |st.puts| && st.puts[w].pc.Closing? then Move(st, w, Gone) else st
    case Crash(w) => if w < |st.puts| && !st.puts[w].pc.Finished? then Move(st, w, Gone) else st
    case PowerLoss(kept, dropped) =>
      st.(files := Cut(st.files, st.synced, kept) - dropped, synced := st.synced - dropped, puts := AllGone(st.puts))
  }

  function Run(hash: Bytes -> string, events: seq<Event>): (r: State)
    decreases |events|
  {
    if events == [] then EMPTY else Step(hash, Run(hash, events[..|events| - 1]), events[|events| - 1])
  }

  /** `get`: the bytes, unless the file is missing or its checksum is another. */
  function Get(hash: Bytes -> string, st: State, checksum: string): (r: Option<Bytes>) {
    if checksum in st.files && hash(st.files[checksum]) == checksum then Some(st.files[checksum]) else None
  }

  /** No power failure drops the entry of this key. */
  predicate KeepsEntry(e: Event, key: string) {
    e.PowerLoss? ==> key !in e.dropped
  }

  predicate KeepEntry(events: seq<Event>, key: string) {
    forall i :: 0 <= i < |events| ==> KeepsEntry(events[i], key)
  }

  lemma KeepSplit(events: seq<Event>, i: nat, j: nat, key: string)
    requires i < j <= |events| && KeepEntry(events[i..j], key)
    ensures KeepEntry(events[i..j - 1], key) && KeepsEntry(events[j - 1], key)
  {
    var shorter := events[i..j - 1];
    forall k | 0 <= k < |shorter|
      ensures KeepsEntry(shorter[k], key)
    {
      assert shorter[k] == events[i..j][k] && KeepsEntry(events[i..j][k], key);
    }
    assert KeepsEntry(events[i..j][j - 1 - i], key);
  }

  // ----- What every run keeps -----

  /** A put that is writing owns its file, which holds what it wrote. */
  ghost predicate Owns(hash: Bytes -> string, st: State, w: nat)
    requires w < |st.puts|
  {
    var put := st.puts[w];
    var key := hash(put.bytes);
    put.pc.Writing? ==>
      put.pc.written <= |put.bytes| && key in st.files && st.files[key] == put.bytes[..put.pc.written] &&
      key !in st.synced
  }

  ghost predicate OneOwner(hash: Bytes -> string, st: State) {
    forall v, w :: 0 <= v < w < |st.puts| ==>
      !(Writes(hash, st.puts[v], hash(st.puts[w].bytes)) && st.puts[w].pc.Writing?)
  }

  predicate Writes(hash: Bytes -> string, put: Put, key: string) {
    put.pc.Writing? && hash(put.bytes) == key
  }

  ghost predicate Intact(hash: Bytes -> string, st: State, key: string) {
    Get(hash, st, key).Some?
  }

  /** A put that created its file is past its sync. */
  ghost predicate CreatorSynced(hash: Bytes -> string, st: State, w: nat)
    requires w < |st.puts|
  {
    st.puts[w].pc in {Closing, Returned(false), Cataloguing(false), Finished(false)} ==>
      hash(st.puts[w].bytes) in st.synced
  }

  ghost predicate Inv(hash: Bytes -> string, st: State) {
    (forall w :: 0 <= w < |st.puts| ==> Owns(hash, st, w) && CreatorSynced(hash, st, w)) && OneOwner(hash, st) &&
    forall key :: key in st.synced ==> Intact(hash, st, key)
  }

  lemma SyncedStay(hash: Bytes -> string, st: State, e: Event, key: string)
    requires Inv(hash, st) && key in Step(hash, st, e).synced
    ensures Intact(hash, Step(hash, st, e), key)
    ensures key in st.synced ==> Get(hash, Step(hash, st, e), key) == Get(hash, st, key)
  {
    if e.Go? && e.w < |st.puts| {
      assert Owns(hash, st, e.w);
      assert st.puts[e.w].bytes[..|st.puts[e.w].bytes|] == st.puts[e.w].bytes;
    }
    if e.FailWrite? && e.w < |st.puts| {
      assert Owns(hash, st, e.w);
    }
    assert key in st.synced ==> Intact(hash, st, key);
  }

  lemma NotBothWriting(hash: Bytes -> string, st: State, v: nat, w: nat)
    requires OneOwner(hash, st) && v < |st.puts| && w < |st.puts| && v != w
    ensures !(Writes(hash, st.puts[v], hash(st.puts[w].bytes)) && st.puts[w].pc.Writing?)
  {
    var a, b := if v < w then v else w, if v < w then w else v;
    assert !(Writes(hash, st.puts[a], hash(st.puts[b].bytes)) && st.puts[b].pc.Writing?);
  }

  /** A put that writes after a step wrote before it, or has just created its file. */
  lemma WriterBefore(hash: Bytes -> string, st: State, e: Event, v: nat)
    requires Inv(hash, st) && v < |Step(hash, st, e).puts| && Step(hash, st, e).puts[v].pc.Writing?
    ensures v < |st.puts| && st.puts[v].bytes == Step(hash, st, e).puts[v].bytes
    ensures st.puts[v].pc.Writing? || (e.Go? && e.w == v && hash(st.puts[v].bytes) !in st.files)
  {
  }

  lemma OneOwnerKept(hash: Bytes -> string, st: State, e: Event)
    requires Inv(hash, st)
    ensures OneOwner(hash, Step(hash, st, e))
  {
    var after := Step(hash, st, e);
    forall v, w | 0 <= v < w < |after.puts|
      ensures !(Writes(hash, after.puts[v], hash(after.puts[w].bytes)) && after.puts[w].pc.Writing?)
    {
      if after.puts[v].pc.Writing? && after.puts[w].pc.Writing? {
        WriterBefore(hash, st, e, v);
        WriterBefore(hash, st, e, w);
        NotBothWriting(hash, st, v, w);
        assert Owns(hash, st, v) && Owns(hash, st, w);
      }
    }
  }

  /** A writer's file is touched by its own steps only. */
  lemma OthersKeepOff(hash: Bytes -> string, st: State, e: Event, v: nat)
    requires Inv(hash, st) && v < |st.puts| && st.puts[v].pc.Writing? && !e.PowerLoss?
    requires !(e.Go? && e.w == v) && !(e.FailWrite? && e.w == v)
    ensures var key := hash(st.puts[v].bytes); var after := Step(hash, st, e);
            key in st.files && key in after.files && after.files[key] == st.files[key] && key !in after.synced
  {
    assert Owns(hash, st, v);
    if (e.Go? || e.FailWrite?) && e.w < |st.puts| {
      assert Owns(hash, st, e.w);
      NotBothWriting(hash, st, v, e.w);
    }
  }

  lemma OwnStepOwns(hash: Bytes -> string, st: State, w: nat, upTo: nat)
    requires Inv(hash, st) && w < |st.puts|
    ensures Owns(hash, StepPut(hash, st, w, upTo), w) && CreatorSynced(hash, StepPut(hash, st, w, upTo), w)
  {
    assert Owns(hash, st, w) && CreatorSynced(hash, st, w);
    assert forall key :: key in st.synced ==> Intact(hash, st, key);
  }

  lemma OwnsKept(hash: Bytes -> string, st: State, e: Event, v: nat)
    requires Inv(hash, st) && v < |Step(hash, st, e).puts|
    ensures Owns(hash, Step(hash, st, e), v) && CreatorSynced(hash, Step(hash, st, e), v)
  {
    if e.Go? && e.w == v {
      OwnStepOwns(hash, st, v, e.upTo);
    } else if v < |st.puts| {
      assert Owns(hash, st, v) && CreatorSynced(hash, st, v);
      if st.puts[v].pc.Writing? && !e.PowerLoss? && !(e.FailWrite? && e.w == v) {
        OthersKeepOff(hash, st, e, v);
      }
    }
  }

  lemma StepKeepsInv(hash: Bytes -> string, st: State, e: Event)
    requires Inv(hash, st)
    ensures Inv(hash, Step(hash, st, e))
    ensures forall key :: key in st.synced && KeepsEntry(e, key) ==> key in Step(hash, st, e).synced
  {
    var after := Step(hash, st, e);
    forall v | 0 <= v < |after.puts|
      ensures Owns(hash, after, v) && CreatorSynced(hash, after, v)
    {
      OwnsKept(hash, st, e, v);
    }
    OneOwnerKept(hash, st, e);
    forall key | key in after.synced
      ensures Intact(hash, after, key)
    {
      SyncedStay(hash, st, e, key);
    }
  }

  lemma {:induction false} RunKeepsInv(hash: Bytes -> string, events: seq<Event>)
    ensures Inv(hash, Run(hash, events))
    decreases |events|
  {
    if events != [] {
      RunKeepsInv(hash, events[..|events| - 1]);
      StepKeepsInv(hash, Run(hash, events[..|events| - 1]), events[|events| - 1]);
    }
  }

  lemma SyncedNext(hash: Bytes -> string, events: seq<Event>, key: string)
    requires events != [] && KeepsEntry(events[|events| - 1], key)
    requires key in Run(hash, events[..|events| - 1]).synced
    ensures key in Run(hash, events).synced
    ensures Get(hash, Run(hash, events), key) == Get(hash, Run(hash, events[..|events| - 1]), key)
  {
    var st, e := Run(hash, events[..|events| - 1]), events[|events| - 1];
    RunKeepsInv(hash, events[..|events| - 1]);
    StepKeepsInv(hash, st, e);
    SyncedStay(hash, st, e, key);
  }

  lemma {:induction false} SyncedForever(hash: Bytes -> string, events: seq<Event>, i: nat, j: nat, key: string)
    requires i <= j <= |events| && key in Run(hash, events[..i]).synced && KeepEntry(events[i..j], key)
    ensures key in Run(hash, events[..j]).synced
    ensures Get(hash, Run(hash, events[..j]), key) == Get(hash, Run(hash, events[..i]), key)
    decreases j
  {
    if i < j {
      KeepSplit(events, i, j, key);
      SyncedForever(hash, events, i, j - 1, key);
      assert events[..j][..j - 1] == events[..j - 1];
      SyncedNext(hash, events[..j], key);
    }
  }

  predicate HasReturned(pc: Pc) {
    pc.Returned? || pc.Cataloguing? || pc.Finished?
  }

  /**
   Whatever fails, dies or loses power: once a put that created its file has returned, its
   bytes are there for every later read, unless a power failure drops the file's directory entry.
   */
  lemma CreatedBlobsStay(hash: Bytes -> string, events: seq<Event>, i: nat, j: nat, w: nat)
    requires CollisionFree(hash) && i <= j <= |events| && w < |Run(hash, events[..i]).puts|
    requires Run(hash, events[..i]).puts[w].pc in {Returned(false), Cataloguing(false), Finished(false)}
    requires KeepEntry(events[i..j], hash(Run(hash, events[..i]).puts[w].bytes))
    ensures var put := Run(hash, events[..i]).puts[w];
            Get(hash, Run(hash, events[..j]), hash(put.bytes)) == Some(put.bytes)
  {
    var st := Run(hash, events[..i]);
    RunKeepsInv(hash, events[..i]);
    assert CreatorSynced(hash, st, w);
    assert Intact(hash, st, hash(st.puts[w].bytes));
    SyncedForever(hash, events, i, j, hash(st.puts[w].bytes));
  }

  // ----- Runs without failed writes and power loss -----

  predicate Benign(e: Event) {
    !e.FailWrite? && !e.PowerLoss?
  }

  /** What the put has established about the file at its key. */
  ghost predicate Checked(hash: Bytes -> string, st: State, w: nat)
    requires w < |st.puts|
  {
    var put := st.puts[w];
    var key := hash(put.bytes);
    (put.pc.Closing? || HasReturned(put.pc) ==> Get(hash, st, key) == Some(put.bytes)) &&
    (put.pc.Reading? ==> key in st.files && |st.files[key]| == |put.bytes|)
  }

  ghost predicate RowBacked(hash: Bytes -> string, st: State, key: string)
    requires key in st.catalog
  {
    Intact(hash, st, key) && |st.files[key]| == st.catalog[key]
  }

  ghost predicate BenignInv(hash: Bytes -> string, st: State) {
    Inv(hash, st) && (forall w :: 0 <= w < |st.puts| ==> Checked(hash, st, w)) &&
    forall key :: key in st.catalog ==> RowBacked(hash, st, key)
  }

  /** A file that is complete is not written again. */
  lemma CompleteStays(hash: Bytes -> string, st: State, e: Event, key: string)
    requires CollisionFree(hash) && Inv(hash, st) && Benign(e) && Intact(hash, st, key)
    ensures Get(hash, Step(hash, st, e), key) == Get(hash, st, key)
  {
    if e.Go? && e.w < |st.puts| && st.puts[e.w].pc.Writing? && hash(st.puts[e.w].bytes) == key {
      assert Owns(hash, st, e.w);
      assert st.files[key] == st.puts[e.w].bytes;
    }
  }

  /** The owner of a file whose size is right has written everything. */
  lemma FullSizeStays(hash: Bytes -> string, st: State, e: Event, key: string, bytes: Bytes)
    requires CollisionFree(hash) && Inv(hash, st) && Benign(e) && hash(bytes) == key
    requires key in st.files && |st.files[key]| == |bytes|
    ensures key in Step(hash, st, e).files && |Step(hash, st, e).files[key]| == |bytes|
  {
    if e.Go? && e.w < |st.puts| && st.puts[e.w].pc.Writing? && hash(st.puts[e.w].bytes) == key {
      assert Owns(hash, st, e.w);
      assert st.puts[e.w].bytes == bytes;
    }
  }

  /** What another event does to the file leaves a put's findings right. */
  lemma FindingsStay(hash: Bytes -> string, st: State, e: Event, v: nat)
    requires CollisionFree(hash) && BenignInv(hash, st) && Benign(e) && v < |st.puts|
    ensures var put := st.puts[v]; var after := Step(hash, st, e); var key := hash(put.bytes);
            (put.pc.Closing? || HasReturned(put.pc) ==> Get(hash, after, key) == Some(put.bytes)) &&
            (put.pc.Reading? ==> key in after.files && |after.files[key]| == |put.bytes|)
  {
    var put := st.puts[v];
    assert Checked(hash, st, v);
    if put.pc.Closing? || HasReturned(put.pc) {
      CompleteStays(hash, st, e, hash(put.bytes));
    }
    if put.pc.Reading? {
      FullSizeStays(hash, st, e, hash(put.bytes), put.bytes);
    }
  }

  /** The put's own step finds what it claims. */
  lemma OwnStepChecks(hash: Bytes -> string, st: State, w: nat, upTo: nat)
    requires CollisionFree(hash) && BenignInv(hash, st) && w < |st.puts|
    ensures Checked(hash, StepPut(hash, st, w, upTo), w)
  {
    var put := st.puts[w];
    assert Checked(hash, st, w) && Owns(hash, st, w);
    assert put.bytes[..|put.bytes|] == put.bytes;
  }

  lemma CheckedKept(hash: Bytes -> string, st: State, e: Event, v: nat)
    requires CollisionFree(hash) && BenignInv(hash, st) && Benign(e) && v < |Step(hash, st, e).puts|
    ensures Checked(hash, Step(hash, st, e), v)
  {
    if e.Go? && e.w == v {
      OwnStepChecks(hash, st, v, e.upTo);
    } else if v < |st.puts| {
      FindingsStay(hash, st, e, v);
      var pc := Step(hash, st, e).puts[v].pc;
      assert Step(hash, st, e).puts[v].bytes == st.puts[v].bytes;
      assert pc == st.puts[v].pc || pc == Gone;
    }
  }

  lemma RowsKept(hash: Bytes -> string, st: State, e: Event, key: string)
    requires CollisionFree(hash) && BenignInv(hash, st) && Benign(e) && key in Step(hash, st, e).catalog
    ensures RowBacked(hash, Step(hash, st, e), key)
  {
    if key in st.catalog {
      assert RowBacked(hash, st, key);
      CompleteStays(hash, st, e, key);
    } else {
      assert Checked(hash, st, e.w);
    }
  }

  lemma {:induction false} BenignRunKeepsInv(hash: Bytes -> string, events: seq<Event>)
    requires CollisionFree(hash) && forall i :: 0 <= i < |events| ==> Benign(events[i])
    ensures BenignInv(hash, Run(hash, events))
    decreases |events|
  {
    if events != [] {
      var st, e := Run(hash, events[..|events| - 1]), events[|events| - 1];
      BenignRunKeepsInv(hash, events[..|events| - 1]);
      StepKeepsInv(hash, st, e);
      forall v | 0 <= v < |Step(hash, st, e).puts|
        ensures Checked(hash, Step(hash, st, e), v)
      {
        CheckedKept(hash, st, e, v);
      }
      forall key | key in Step(hash, st, e).catalog
        ensures RowBacked(hash, Step(hash, st, e), key)
      {
        RowsKept(hash, st, e, key);
      }
    }
  }

  lemma {:induction false} CompleteForever(hash: Bytes -> string, events: seq<Event>, i: nat, j: nat, key: string)
    requires CollisionFree(hash) && i <= j <= |events| && forall k :: 0 <= k < |events| ==> Benign(events[k])
    requires Intact(hash, Run(hash, events[..i]), key)
    ensures Get(hash, Run(hash, events[..j]), key) == Get(hash, Run(hash, events[..i]), key)
    decreases j
  {
    if i < j {
      CompleteForever(hash, events, i, j - 1, key);
      assert events[..j][..j - 1] == events[..j - 1];
      RunKeepsInv(hash, events[..j - 1]);
      CompleteStays(hash, Run(hash, events[..j - 1]), events[j - 1], key);
    }
  }

  /**
   Without failed writes, failed syncs and power loss, and with any processes dying: once any
   put has returned, created or reused, its bytes are there for every later read.
   */
  lemma ReturnedBlobsStay(hash: Bytes -> string, events: seq<Event>, i: nat, j: nat, w: nat)
    requires CollisionFree(hash) && i <= j <= |events| && forall k :: 0 <= k < |events| ==> Benign(events[k])
    requires w < |Run(hash, events[..i]).puts| && HasReturned(Run(hash, events[..i]).puts[w].pc)
    ensures var put := Run(hash, events[..i]).puts[w];
            Get(hash, Run(hash, events[..j]), hash(put.bytes)) == Some(put.bytes)
  {
    BenignRunKeepsInv(hash, events[..i]);
    assert Checked(hash, Run(hash, events[..i]), w);
    CompleteForever(hash, events, i, j, hash(Run(hash, events[..i]).puts[w].bytes));
  }

  /** In such a run every catalogue row has a blob of its size behind it. */
  lemma CatalogRowsBacked(hash: Bytes -> string, events: seq<Event>, key: string)
    requires CollisionFree(hash) && forall i :: 0 <= i < |events| ==> Benign(events[i])
    requires key in Run(hash, events).catalog
    ensures RowBacked(hash, Run(hash, events), key)
  {
    BenignRunKeepsInv(hash, events);
  }

  // ----- What the exclusions are for -----

  lemma RunSnoc(hash: Bytes -> string, events: seq<Event>, e: Event)
    ensures Run(hash, events + [e]) == Step(hash, Run(hash, events), e)
  {
    assert (events + [e])[..|events|] == events;
  }

  /** A second put checks the file before its creator has synced. */
  lemma ReuseBeforeSync(hash: Bytes -> string, bytes: Bytes) returns (events: seq<Event>)
    requires bytes != []
    ensures var st := Run(hash, events);
            |st.puts| == 2 && st.puts[0] == Put(bytes, Writing(|bytes|)) && st.puts[1] == Put(bytes, Returned(true)) &&
            st.synced == {} && st.files == map[hash(bytes) := bytes]
  {
    events := [];
    RunSnoc(hash, events, Begin(bytes));
    events := events + [Begin(bytes)];
    RunSnoc(hash, events, Begin(bytes));
    events := events + [Begin(bytes)];
    RunSnoc(hash, events, Go(0, 0));
    events := events + [Go(0, 0)];
    RunSnoc(hash, events, Go(0, |bytes|));
    events := events + [Go(0, |bytes|)];
    assert bytes[..|bytes|] == bytes;
    assert Run(hash, events).files == map[hash(bytes) := bytes];
    RunSnoc(hash, events, Go(1, 0));
    events := events + [Go(1, 0)];
    RunSnoc(hash, events, Go(1, 0));
    events := events + [Go(1, 0)];
    RunSnoc(hash, events, Go(1, 0));
    events := events + [Go(1, 0)];
  }

  /**
   A reused blob may be lost, whatever its bytes: when the creator's sync fails after another
   put has returned, or when power is lost before that sync.
   */
  lemma ReusedBlobMayBeLost(hash: Bytes -> string, bytes: Bytes) returns (events: seq<Event>)
    requires CollisionFree(hash) && bytes != []
    ensures var st := Run(hash, events);
            |st.puts| == 2 && st.puts[1] == Put(bytes, Returned(true)) && Get(hash, st, hash(bytes)) == Some(bytes)
    ensures Get(hash, Run(hash, events + [FailWrite(0)]), hash(bytes)) == None
    ensures Get(hash, Run(hash, events + [PowerLoss(map[hash(bytes) := 0], {})]), hash(bytes)) == None
  {
    events := ReuseBeforeSync(hash, bytes);
    RunSnoc(hash, events, FailWrite(0));
    RunSnoc(hash, events, PowerLoss(map[hash(bytes) := 0], {}));
    assert hash([]) != hash(bytes);
  }

  /** The file at the key of `bytes` is cut short; every put of `bytes` is before its size check, or gone. */
  ghost predicate Stuck(hash: Bytes -> string, st: State, bytes: Bytes) {
    hash(bytes) in st.files && hash(bytes) !in st.synced && |st.files[hash(bytes)]| < |bytes| &&
    forall w :: 0 <= w < |st.puts| && st.puts[w].bytes == bytes ==>
      st.puts[w].pc.Opening? || st.puts[w].pc.Statting? || st.puts[w].pc.Gone?
  }

  /** A process that dies while writing leaves such a file. */
  lemma CrashLeavesStuck(hash: Bytes -> string, st: State, w: nat)
    requires CollisionFree(hash) && BenignInv(hash, st) && w < |st.puts|
    requires st.puts[w].pc.Writing? && st.puts[w].pc.written < |st.puts[w].bytes|
    ensures Stuck(hash, Step(hash, st, Crash(w)), st.puts[w].bytes)
  {
    var bytes := st.puts[w].bytes;
    assert Owns(hash, st, w);
    forall v | 0 <= v < |st.puts| && st.puts[v].bytes == bytes && v != w
      ensures st.puts[v].pc.Opening? || st.puts[v].pc.Statting? || st.puts[v].pc.Gone?
    {
      assert Checked(hash, st, v);
      NotBothWriting(hash, st, v, w);
    }
  }

  lemma StuckStep(hash: Bytes -> string, st: State, e: Event, bytes: Bytes)
    requires CollisionFree(hash) && Stuck(hash, st, bytes) && KeepsEntry(e, hash(bytes))
    ensures Stuck(hash, Step(hash, st, e), bytes)
  {
    var after := Step(hash, st, e);
    forall w | 0 <= w < |after.puts| && after.puts[w].bytes == bytes
      ensures after.puts[w].pc.Opening? || after.puts[w].pc.Statting? || after.puts[w].pc.Gone?
    {
      if w < |st.puts| {
        assert st.puts[w].bytes == bytes;
      }
    }
    if e.Go? && e.w < |st.puts| && hash(st.puts[e.w].bytes) == hash(bytes) {
      assert st.puts[e.w].bytes == bytes;
    }
  }

  /**
   From then on, until a power failure drops the file's entry, no put of these bytes returns: each
   ends in an integrity error.
   */
  lemma {:induction false} StuckForever(hash: Bytes -> string, events: seq<Event>, i: nat, j: nat, bytes: Bytes)
    requires CollisionFree(hash) && i <= j <= |events| && Stuck(hash, Run(hash, events[..i]), bytes)
    requires KeepEntry(events[i..j], hash(bytes))
    ensures Stuck(hash, Run(hash, events[..j]), bytes)
    decreases j
  {
    if i < j {
      KeepSplit(events, i, j, hash(bytes));
      StuckForever(hash, events, i, j - 1, bytes);
      assert events[..j][..j - 1] == events[..j - 1];
      StuckStep(hash, Run(hash, events[..j - 1]), events[j - 1], bytes);
    }
  }

  // ----- Exactly when a blob stays -----

  ghost predicate ReadsBack(hash: Bytes -> string, st: State, bytes: Bytes) {
    Get(hash, st, hash(bytes)) == Some(bytes)
  }

  /** Whatever happens after these events, short of a dropped directory entry, the bytes can be read. */
  ghost predicate StaysForever(hash: Bytes -> string, events: seq<Event>, bytes: Bytes) {
    forall more: seq<Event> :: KeepEntry(more, hash(bytes)) ==> ReadsBack(hash, Run(hash, events + more), bytes)
  }

  /** Non-empty bytes stay readable in that sense exactly when their file has been synced. */
  lemma StaysExactlyWhenSynced(hash: Bytes -> string, events: seq<Event>, bytes: Bytes)
    requires CollisionFree(hash) && bytes != []
    ensures StaysForever(hash, events, bytes) <==> hash(bytes) in Run(hash, events).synced
  {
    var key := hash(bytes);
    if key in Run(hash, events).synced {
      RunKeepsInv(hash, events);
      assert Intact(hash, Run(hash, events), key);
      forall more: seq<Event> | KeepEntry(more, key)
        ensures ReadsBack(hash, Run(hash, events + more), bytes)
      {
        assert (events + more)[..|events|] == events && (events + more)[..|events + more|] == events + more;
        assert (events + more)[|events|..|events + more|] == more;
        SyncedForever(hash, events + more, |events|, |events + more|, key);
      }
    } else {
      var cut := PowerLoss(map[key := 0], {});
      RunSnoc(hash, events, cut);
      assert hash([]) != key;
      assert KeepEntry([cut], key) && !ReadsBack(hash, Run(hash, events + [cut]), bytes);
    }
  }

  /** A power failure that drops the entry loses the bytes, synced or not. */
  lemma DroppedEntryLosesBlob(hash: Bytes -> string, events: seq<Event>, bytes: Bytes)
    ensures !ReadsBack(hash, Run(hash, events + [PowerLoss(map[], {hash(bytes)})]), bytes)
  {
    RunSnoc(hash, events, PowerLoss(map[], {hash(bytes)}));
  }

  // ----- Exactly when a content is blocked -----

  /** The file is cut short, unsynced, and nobody is writing it. */
  predicate Blocked(hash: Bytes -> string, st: State, bytes: Bytes) {
    var key := hash(bytes);
    key in st.files && key !in st.synced && |st.files[key]| < |bytes| &&
    forall w :: 0 <= w < |st.puts| ==> !Writes(hash, st.puts[w], key)
  }

  /** A put of the bytes that begins after these events has returned. */
  ghost predicate LaterReturn(hash: Bytes -> string, events: seq<Event>, more: seq<Event>, bytes: Bytes, w: nat) {
    var st := Run(hash, events + more);
    |Run(hash, events).puts| <= w < |st.puts| && st.puts[w].bytes == bytes && HasReturned(st.puts[w].pc)
  }

  /** No such put returns, whatever happens short of a dropped directory entry. */
  ghost predicate NoLaterReturn(hash: Bytes -> string, events: seq<Event>, bytes: Bytes) {
    forall more: seq<Event>, w: nat :: KeepEntry(more, hash(bytes)) ==> !LaterReturn(hash, events, more, bytes, w)
  }

  /** Blocked, and every put of the bytes from number `n` on is before its size check, or gone. */
  ghost predicate BlockedFrom(hash: Bytes -> string, st: State, bytes: Bytes, n: nat) {
    Blocked(hash, st, bytes) && n <= |st.puts| &&
    forall w :: n <= w < |st.puts| && st.puts[w].bytes == bytes ==>
      st.puts[w].pc.Opening? || st.puts[w].pc.Statting? || st.puts[w].pc.Gone?
  }

  lemma BlockedStays(hash: Bytes -> string, st: State, e: Event, bytes: Bytes)
    requires CollisionFree(hash) && Blocked(hash, st, bytes) && KeepsEntry(e, hash(bytes))
    ensures Blocked(hash, Step(hash, st, e), bytes)
  {
    var after := Step(hash, st, e);
    var key := hash(bytes);
    if (e.Go? || e.FailWrite?) && e.w < |st.puts| {
      assert !Writes(hash, st.puts[e.w], key);
    }
    forall w | 0 <= w < |after.puts|
      ensures !Writes(hash, after.puts[w], key)
    {
      if w < |st.puts| {
        assert !Writes(hash, st.puts[w], key);
      }
    }
  }

  lemma LaterPutsWait(hash: Bytes -> string, st: State, e: Event, bytes: Bytes, n: nat)
    requires CollisionFree(hash) && BlockedFrom(hash, st, bytes, n) && KeepsEntry(e, hash(bytes))
    ensures BlockedFrom(hash, Step(hash, st, e), bytes, n)
  {
    var after := Step(hash, st, e);
    BlockedStays(hash, st, e, bytes);
    forall w | n <= w < |after.puts| && after.puts[w].bytes == bytes
      ensures after.puts[w].pc.Opening? || after.puts[w].pc.Statting? || after.puts[w].pc.Gone?
    {
      if w < |st.puts| {
        assert st.puts[w].bytes == bytes;
      }
    }
  }

  lemma {:induction false} BlockedForever(hash: Bytes -> string, events: seq<Event>, more: seq<Event>, bytes: Bytes)
    requires CollisionFree(hash) && Blocked(hash, Run(hash, events), bytes) && KeepEntry(more, hash(bytes))
    ensures BlockedFrom(hash, Run(hash, events + more), bytes, |Run(hash, events).puts|)
    decreases |more|
  {
    if more == [] {
      assert events + more == events;
    } else {
      var before, last := more[..|more| - 1], more[|more| - 1];
      assert events + more == (events + before) + [last];
      assert KeepsEntry(more[|more| - 1], hash(bytes));
      BlockedForever(hash, events, before, bytes);
      RunSnoc(hash, events + before, last);
      LaterPutsWait(hash, Run(hash, events + before), last, bytes, |Run(hash, events).puts|);
    }
  }

  /** Every file holds a prefix of the content its key stands for. */
  ghost predicate Prefixes(hash: Bytes -> string, st: State) {
    forall b: Bytes :: hash(b) in st.files ==> st.files[hash(b)] <= b
  }

  lemma StepKeepsPrefixes(hash: Bytes -> string, st: State, e: Event)
    requires CollisionFree(hash) && Prefixes(hash, st)
    ensures Prefixes(hash, Step(hash, st, e))
  {
    var after := Step(hash, st, e);
    forall b: Bytes | hash(b) in after.files
      ensures after.files[hash(b)] <= b
    {
      if e.Go? && e.w < |st.puts| && hash(st.puts[e.w].bytes) == hash(b) {
        assert st.puts[e.w].bytes == b;
      }
    }
  }

  lemma {:induction false} RunKeepsPrefixes(hash: Bytes -> string, events: seq<Event>)
    requires CollisionFree(hash)
    ensures Prefixes(hash, Run(hash, events))
    decreases |events|
  {
    if events != [] {
      RunKeepsPrefixes(hash, events[..|events| - 1]);
      StepKeepsPrefixes(hash, Run(hash, events[..|events| - 1]), events[|events| - 1]);
    }
  }

  predicate NoPowerLoss(events: seq<Event>) {
    forall i :: 0 <= i < |events| ==> !events[i].PowerLoss?
  }

  lemma Extend(hash: Bytes -> string, events: seq<Event>, more: seq<Event>, e: Event) returns (longer: seq<Event>)
    requires NoPowerLoss(more) && !e.PowerLoss?
    ensures NoPowerLoss(longer)
    ensures Run(hash, events + longer) == Step(hash, Run(hash, events + more), e)
  {
    longer := more + [e];
    assert events + longer == (events + more) + [e];
    RunSnoc(hash, events + more, e);
  }

  /** A put of bytes whose file is complete returns. */
  lemma PutOverComplete(hash: Bytes -> string, events: seq<Event>, bytes: Bytes) returns (more: seq<Event>)
    requires hash(bytes) in Run(hash, events).files && Run(hash, events).files[hash(bytes)] == bytes
    ensures LaterReturn(hash, events, more, bytes, |Run(hash, events).puts|) && NoPowerLoss(more)
  {
    var n := |Run(hash, events).puts|;
    assert events + [] == events;
    more := Extend(hash, events, [], Begin(bytes));
    more := Extend(hash, events, more, Go(n, 0));
    more := Extend(hash, events, more, Go(n, 0));
    more := Extend(hash, events, more, Go(n, 0));
  }

  /** A put of bytes that have no file creates it. */
  lemma PutCreates(hash: Bytes -> string, events: seq<Event>, bytes: Bytes) returns (more: seq<Event>)
    requires hash(bytes) !in Run(hash, events).files
    ensures var n := |Run(hash, events).puts|;
            NoPowerLoss(more) && |Run(hash, events + more).puts| == n + 1 &&
            Run(hash, events + more).puts[n] == Put(bytes, Writing(0))
  {
    assert events + [] == events;
    more := Extend(hash, events, [], Begin(bytes));
    more := Extend(hash, events, more, Go(|Run(hash, events).puts|, 0));
  }

  /** A put of bytes that have no file returns. */
  lemma PutNew(hash: Bytes -> string, events: seq<Event>, bytes: Bytes) returns (more: seq<Event>)
    requires hash(bytes) !in Run(hash, events).files
    ensures LaterReturn(hash, events, more, bytes, |Run(hash, events).puts|) && NoPowerLoss(more)
  {
    var n := |Run(hash, events).puts|;
    more := PutCreates(hash, events, bytes);
    if bytes != [] {
      more := Extend(hash, events, more, Go(n, |bytes|));
    }
    more := Extend(hash, events, more, Go(n, 0));
    more := Extend(hash, events, more, Go(n, 0));
  }

  /** The writer of a file writes the rest of it. */
  lemma WriteRest(hash: Bytes -> string, events: seq<Event>, bytes: Bytes, v: nat)
    requires CollisionFree(hash) && v < |Run(hash, events).puts| && Writes(hash, Run(hash, events).puts[v], hash(bytes))
    ensures var after := Run(hash, events + [Go(v, |bytes|)]);
            |after.puts| == |Run(hash, events).puts| && hash(bytes) in after.files && after.files[hash(bytes)] == bytes
  {
    RunKeepsInv(hash, events);
    RunSnoc(hash, events, Go(v, |bytes|));
    assert Owns(hash, Run(hash, events), v);
    assert bytes[..|bytes|] == bytes;
  }

  /** A put of bytes that somebody is still writing returns once they are written. */
  lemma PutAfterWriter(hash: Bytes -> string, events: seq<Event>, bytes: Bytes, v: nat) returns (more: seq<Event>)
    requires CollisionFree(hash) && v < |Run(hash, events).puts| && Writes(hash, Run(hash, events).puts[v], hash(bytes))
    ensures LaterReturn(hash, events, more, bytes, |Run(hash, events).puts|) && NoPowerLoss(more)
  {
    WriteRest(hash, events, bytes, v);
    var rest := PutOverComplete(hash, events + [Go(v, |bytes|)], bytes);
    more := [Go(v, |bytes|)] + rest;
    assert events + more == events + [Go(v, |bytes|)] + rest;
  }

  /**
   No put of these bytes that begins later can return, whatever happens short of a dropped entry,
   exactly when their file is unsynced, shorter than the bytes, and has no writer.
   */
  lemma BlockedExactly(hash: Bytes -> string, events: seq<Event>, bytes: Bytes)
    requires CollisionFree(hash)
    ensures NoLaterReturn(hash, events, bytes) <==> Blocked(hash, Run(hash, events), bytes)
  {
    var st := Run(hash, events);
    var key := hash(bytes);
    if Blocked(hash, st, bytes) {
      forall more: seq<Event>, w: nat | KeepEntry(more, key)
        ensures !LaterReturn(hash, events, more, bytes, w)
      {
        BlockedForever(hash, events, more, bytes);
      }
    } else {
      RunKeepsInv(hash, events);
      RunKeepsPrefixes(hash, events);
      var more;
      if key !in st.files {
        more := PutNew(hash, events, bytes);
      } else if key in st.synced || |st.files[key]| >= |bytes| {
        assert key in st.synced ==> Intact(hash, st, key);
        more := PutOverComplete(hash, events, bytes);
      } else {
        var v :| 0 <= v < |st.puts| && Writes(hash, st.puts[v], key);
        more := PutAfterWriter(hash, events, bytes, v);
      }
    }
  }

  /** A power failure that drops the entry of a blocked file lets the next put return. */
  lemma DroppedEntryUnblocks(hash: Bytes -> string, events: seq<Event>, bytes: Bytes) returns (more: seq<Event>)
    ensures LaterReturn(hash, events, more, bytes, |Run(hash, events).puts|)
  {
    var drop := PowerLoss(map[], {hash(bytes)});
    RunSnoc(hash, events, drop);
    var rest := PutNew(hash, events + [drop], bytes);
    more := [drop] + rest;
    assert events + more == events + [drop] + rest;
  }
}
