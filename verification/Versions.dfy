/**
 Document versions: the checks on one version row, interval coverage, and the selection of
 the current version and of the version in force at an instant.
 */
module Versions {
  import opened Prelude

  datatype Status = DRAFT | PUBLISHED | SUPERSEDED | WITHDRAWN

  /** An optional ISO timestamp as it arrives: absent (null or ""), unparsable, or an instant in ms. */
  datatype Stamp = Unknown | Malformed | At(ms: int)

  /** A stored version row; stored bounds are absent or valid. */
  datatype Version = Version(
    id: string,
    documentId: string,
    number: int,
    from: Option<int>,
    to: Option<int>,
    hash: string,
    parserId: string,
    status: Status,
    archiveId: string)

  function ToStamp(t: Option<int>): (r: Stamp) {
    match t case None => Unknown case Some(ms) => At(ms)
  }

  /** A bound whose number is truthy: the check on the order of bounds skips instant 0. */
  predicate Counts(s: Stamp) {
    s.At? && s.ms != 0
  }

  /** `assertDocumentVersion` passes. */
  predicate ValidVersion(number: int, from: Stamp, to: Stamp, hash: string, parserId: string, archiveId: string) {
    number >= 1 && !Blank(hash) && !Blank(parserId) && !Blank(archiveId) &&
    !from.Malformed? && !to.Malformed? && !(Counts(from) && Counts(to) && from.ms > to.ms)
  }

  predicate ValidRow(v: Version) {
    ValidVersion(v.number, ToStamp(v.from), ToStamp(v.to), v.hash, v.parserId, v.archiveId)
  }

  /** Same source bytes under another parser. */
  predicate IsCanonicalizationUpdate(existing: Version, hash: string, archiveId: string, parserId: string) {
    existing.hash == hash && existing.archiveId == archiveId && existing.parserId != parserId
  }

  // ----- Overlap of published intervals -----

  /** `a <= b` where an absent lower bound is minus and an absent upper bound plus infinity. */
  predicate Reaches(from: Option<int>, to: Option<int>) {
    from.None? || to.None? || from.value <= to.value
  }

  predicate IntervalsOverlap(a: Version, b: Version) {
    Reaches(a.from, b.to) && Reaches(b.from, a.to)
  }

  /** The instant lies between the bounds, both included; an absent bound is no bound. */
  predicate Spans(v: Version, ms: int) {
    (v.from.Some? ==> v.from.value <= ms) && (v.to.Some? ==> ms <= v.to.value)
  }

  /** Intervals whose bounds are in order overlap exactly when they have an instant in common. */
  lemma OverlapMeaning(a: Version, b: Version)
    requires (exists t :: Spans(a, t)) && (exists t :: Spans(b, t))
    ensures IntervalsOverlap(a, b) <==> exists t :: Spans(a, t) && Spans(b, t)
  {
    if IntervalsOverlap(a, b) {
      var x :| Spans(a, x);
      var y :| Spans(b, y);
      var low := if x <= y then x else y;
      var later := if a.from.Some? && a.from.value > low then a.from.value else low;
      var t := if b.from.Some? && b.from.value > later then b.from.value else later;
      assert Spans(a, t) && Spans(b, t);
    }
  }

  predicate Clash(a: Version, b: Version) {
    a.status == PUBLISHED && b.status == PUBLISHED && IntervalsOverlap(a, b)
  }

  /** No two published rows overlap. */
  ghost predicate NoOverlap(vs: seq<Version>) {
    forall i, j :: 0 <= i < j < |vs| ==> !Clash(vs[i], vs[j])
  }

  function PublishedRows(vs: seq<Version>): (r: seq<Version>)
    ensures forall i :: 0 <= i < |r| ==> r[i].status == PUBLISHED
    decreases |vs|
  {
    if vs == [] then []
    else PublishedRows(vs[..|vs| - 1]) + if vs[|vs| - 1].status == PUBLISHED then [vs[|vs| - 1]] else []
  }

  lemma {:induction false} PublishedMembers(vs: seq<Version>)
    ensures forall v :: v in PublishedRows(vs) <==> v in vs && v.status == PUBLISHED
    decreases |vs|
  {
    if vs != [] {
      PublishedMembers(vs[..|vs| - 1]);
      assert vs == vs[..|vs| - 1] + [vs[|vs| - 1]];
    }
  }

  lemma NoOverlapSnoc(vs: seq<Version>, last: Version)
    ensures NoOverlap(vs + [last]) <==> NoOverlap(vs) && forall v :: v in vs ==> !Clash(v, last)
  {
    var all := vs + [last];
    if NoOverlap(all) {
      assert forall i :: 0 <= i < |vs| ==> all[i] == vs[i];
      forall v | v in vs
        ensures !Clash(v, last)
      {
        var i :| 0 <= i < |vs| && vs[i] == v;
        assert all[i] == v && all[|vs|] == last;
      }
    }
  }

  lemma SameClashes(vs: seq<Version>, last: Version)
    ensures (forall v :: v in vs ==> !Clash(v, last)) <==> (forall v :: v in PublishedRows(vs) ==> !Clash(v, last))
  {
    PublishedMembers(vs);
  }

  /** Overlap among the rows is overlap among the published ones. */
  lemma {:induction false} PublishedOverlap(vs: seq<Version>)
    ensures NoOverlap(vs) <==> NoOverlap(PublishedRows(vs))
    decreases |vs|
  {
    if vs != [] {
      var before, last := vs[..|vs| - 1], vs[|vs| - 1];
      assert vs == before + [last];
      PublishedOverlap(before);
      NoOverlapSnoc(before, last);
      NoOverlapSnoc(PublishedRows(before), last);
      SameClashes(before, last);
      assert PublishedRows(vs) == PublishedRows(before) + if last.status == PUBLISHED then [last] else [];
      assert last.status != PUBLISHED ==> PublishedRows(vs) == PublishedRows(before);
    }
  }

  /** The nested loops over published rows. */
  method VersionsDoNotOverlap(vs: seq<Version>) returns (ok: bool)
    ensures ok <==> NoOverlap(vs)
  {
    var published := [];
    for k := 0 to |vs|
      invariant published == PublishedRows(vs[..k])
    {
      assert vs[..k + 1][..k] == vs[..k];
      if vs[k].status == PUBLISHED {
        published := published + [vs[k]];
      }
    }
    assert vs[..|vs|] == vs;
    PublishedOverlap(vs);
    for i := 0 to |published|
      invariant forall a, b :: 0 <= a < i && a < b < |published| ==> !Clash(published[a], published[b])
    {
      for j := i + 1 to |published|
        invariant forall b :: i < b < j ==> !Clash(published[i], published[b])
      {
        if IntervalsOverlap(published[i], published[j]) {
          assert Clash(published[i], published[j]);
          return false;
        }
      }
    }
    return true;
  }

  // ----- As-of selection -----

  /** Both bounds are known and the instant is in [from, to). */
  predicate Covers(v: Version, instant: Stamp) {
    instant.At? && v.from.Some? && v.to.Some? && v.from.value <= instant.ms < v.to.value
  }

  predicate Citable(v: Version) {
    v.status == PUBLISHED || v.status == SUPERSEDED
  }

  /** The row with the greatest number that is published; rows are kept in number order. */
  function Current(vs: seq<Version>): (r: Option<Version>)
    ensures r.Some? ==> r.value in vs && r.value.status == PUBLISHED
    decreases |vs|
  {
    if vs == [] then None
    else if vs[|vs| - 1].status == PUBLISHED then Some(vs[|vs| - 1])
    else Current(vs[..|vs| - 1])
  }

  /** The row with the greatest number that is published or superseded and covers the instant. */
  function AsOf(vs: seq<Version>, instant: Stamp): (r: Option<Version>)
    ensures r.Some? ==> r.value in vs && Citable(r.value) && Covers(r.value, instant)
    ensures r.None? ==> forall i :: 0 <= i < |vs| && Citable(vs[i]) ==> !Covers(vs[i], instant)
    decreases |vs|
  {
    if vs == [] then None
    else if Citable(vs[|vs| - 1]) && Covers(vs[|vs| - 1], instant) then Some(vs[|vs| - 1])
    else AsOf(vs[..|vs| - 1], instant)
  }

  /** `findPublishedForDocument`. */
  method FindPublishedForDocument(vs: seq<Version>, asOf: Option<Stamp>) returns (r: Option<Version>)
    ensures asOf.None? ==> r == Current(vs)
    ensures asOf.Some? ==> r == AsOf(vs, asOf.value)
  {
    var k := |vs|;
    assert vs[..k] == vs;
    while k > 0
      invariant 0 <= k <= |vs|
      invariant asOf.None? ==> Current(vs) == Current(vs[..k])
      invariant asOf.Some? ==> AsOf(vs, asOf.value) == AsOf(vs[..k], asOf.value)
    {
      k := k - 1;
      assert vs[..k + 1][..k] == vs[..k];
      if asOf.None? {
        if vs[k].status == PUBLISHED {
          return Some(vs[k]);
        }
      } else if Citable(vs[k]) && Covers(vs[k], asOf.value) {
        return Some(vs[k]);
      }
    }
    return None;
  }

  // ----- A well-kept history -----

  /**
   The history of one document: numbered 1..n, only the last row published and open-ended,
   all older rows superseded, no (bytes, parser) pair twice.
   */
  ghost predicate WellKept(documentId: string, vs: seq<Version>) {
    (forall i :: 0 <= i < |vs| ==>
      vs[i].documentId == documentId && vs[i].number == i + 1 && ValidRow(vs[i]) &&
      vs[i].status == (if i == |vs| - 1 then PUBLISHED else SUPERSEDED) &&
      (i == |vs| - 1 ==> vs[i].to.None?)) &&
    (forall i, j :: 0 <= i < j < |vs| ==> vs[i].hash != vs[j].hash || vs[i].parserId != vs[j].parserId) &&
    (forall i, j :: 0 <= i < j < |vs| ==> vs[i].id != vs[j].id)
  }

  lemma CurrentIsLast(documentId: string, vs: seq<Version>)
    requires WellKept(documentId, vs)
    ensures Current(vs) == if vs == [] then None else Some(vs[|vs| - 1])
  {
  }

  /** A published row is superseded; a source update closes an open interval now. */
  function Supersede(v: Version, canonicalization: bool, now: int): (r: Version) {
    v.(status := SUPERSEDED, to := if canonicalization || v.to.Some? then v.to else Some(now))
  }

  function SupersedeAll(vs: seq<Version>, canonicalization: bool, now: int): (r: seq<Version>)
    ensures |r| == |vs|
    ensures forall i :: 0 <= i < |vs| ==>
              r[i] == if vs[i].status == PUBLISHED then Supersede(vs[i], canonicalization, now) else vs[i]
  {
    seq(|vs|, i requires 0 <= i < |vs| =>
      if vs[i].status == PUBLISHED then Supersede(vs[i], canonicalization, now) else vs[i])
  }

  function MaxNumber(vs: seq<Version>): (r: int)
    ensures r >= 0 && forall i :: 0 <= i < |vs| ==> vs[i].number <= r
    ensures r == 0 || exists i :: 0 <= i < |vs| && vs[i].number == r
    decreases |vs|
  {
    if vs == [] then 0
    else
      var before := MaxNumber(vs[..|vs| - 1]);
      if vs[|vs| - 1].number > before then vs[|vs| - 1].number else before
  }

  lemma NextNumberIsNext(documentId: string, vs: seq<Version>)
    requires WellKept(documentId, vs)
    ensures MaxNumber(vs) == |vs|
  {
    if vs != [] {
      assert vs[|vs| - 1].number == |vs|;
    }
  }

  /** A new row after superseding keeps the history well kept. */
  lemma ExtendWellKept(documentId: string, vs: seq<Version>, canonicalization: bool, now: int, next: Version)
    requires WellKept(documentId, vs)
    requires vs != [] ==> ValidRow(Supersede(vs[|vs| - 1], canonicalization, now))
    requires next.documentId == documentId && next.number == |vs| + 1 && ValidRow(next)
    requires next.status == PUBLISHED && next.to.None?
    requires forall v :: v in vs ==> (v.hash != next.hash || v.parserId != next.parserId) && v.id != next.id
    ensures WellKept(documentId, SupersedeAll(vs, canonicalization, now) + [next])
  {
    var all := SupersedeAll(vs, canonicalization, now) + [next];
    forall i | 0 <= i < |vs|
      ensures ExtendedRow(documentId, vs, all, i) && vs[i] in vs
    {
      ExtendRow(documentId, vs, canonicalization, now, i);
    }
  }

  /** Row `i` is kept, as superseded. */
  ghost predicate ExtendedRow(documentId: string, vs: seq<Version>, all: seq<Version>, i: nat)
    requires i < |vs| <= |all|
  {
    all[i].documentId == documentId && all[i].number == i + 1 && ValidRow(all[i]) && all[i].status == SUPERSEDED &&
    all[i].hash == vs[i].hash && all[i].parserId == vs[i].parserId && all[i].id == vs[i].id
  }

  lemma ExtendRow(documentId: string, vs: seq<Version>, canonicalization: bool, now: int, i: nat)
    requires WellKept(documentId, vs) && i < |vs|
    requires ValidRow(Supersede(vs[|vs| - 1], canonicalization, now))
    ensures ExtendedRow(documentId, vs, SupersedeAll(vs, canonicalization, now), i)
  {
  }

  // ----- What a publish does to as-of answers -----

  lemma AsOfSnoc(vs: seq<Version>, last: Version, instant: Stamp)
    ensures AsOf(vs + [last], instant) ==
            if Citable(last) && Covers(last, instant) then Some(last) else AsOf(vs, instant)
  {
    assert (vs + [last])[..|vs|] == vs;
  }

  lemma AsOfTwo(before: seq<Version>, a: Version, b: Version, instant: Stamp)
    ensures AsOf(before + [a] + [b], instant) ==
            if Citable(b) && Covers(b, instant) then Some(b)
            else if Citable(a) && Covers(a, instant) then Some(a) else AsOf(before, instant)
  {
    AsOfSnoc(before + [a], b, instant);
    AsOfSnoc(before, a, instant);
  }

  /** Superseding changes only the last row of a well-kept history. */
  lemma SupersedeLast(documentId: string, vs: seq<Version>, canonicalization: bool, now: int)
    requires WellKept(documentId, vs) && vs != []
    ensures SupersedeAll(vs, canonicalization, now) ==
            vs[..|vs| - 1] + [Supersede(vs[|vs| - 1], canonicalization, now)]
  {
  }

  /**
   A re-parse of the same bytes changes no as-of answer, whatever the instant. (The answer
   is named by its row; rows below the last are untouched.)
   */
  lemma CanonicalizationKeepsAsOf(documentId: string, vs: seq<Version>, now: int, next: Version, instant: Stamp)
    requires WellKept(documentId, vs) && vs != []
    requires next.status == PUBLISHED && next.from.None? && next.to.None?
    ensures AsOf(SupersedeAll(vs, true, now) + [next], instant) == AsOf(vs, instant)
  {
    var before, last := vs[..|vs| - 1], vs[|vs| - 1];
    SupersedeLast(documentId, vs, true, now);
    AsOfTwo(before, Supersede(last, true, now), next, instant);
    assert vs == before + [last];
    AsOfSnoc(before, last, instant);
  }

  lemma ClosedAnswer(before: seq<Version>, last: Version, now: int, next: Version, instant: Stamp)
    requires last.to.None? && last.status == PUBLISHED && next.to.None?
    ensures AsOf(before + [Supersede(last, false, now)] + [next], instant) ==
            if instant.At? && last.from.Some? && last.from.value <= instant.ms < now
            then Some(Supersede(last, false, now)) else AsOf(before + [last], instant)
  {
    AsOfTwo(before, Supersede(last, false, now), next, instant);
    AsOfSnoc(before, last, instant);
  }

  /**
   A source update changes as-of answers exactly inside [from, now) of the version it
   supersedes, and there the answer becomes that version.
   */
  lemma SourceUpdateAsOf(documentId: string, vs: seq<Version>, now: int, next: Version, instant: Stamp)
    requires WellKept(documentId, vs) && vs != [] && next.status == PUBLISHED && next.to.None?
    ensures var last := vs[|vs| - 1];
            AsOf(SupersedeAll(vs, false, now) + [next], instant) ==
            if instant.At? && last.from.Some? && last.from.value <= instant.ms < now
            then Some(Supersede(last, false, now)) else AsOf(vs, instant)
  {
    var before, last := vs[..|vs| - 1], vs[|vs| - 1];
    SupersedeLast(documentId, vs, false, now);
    ClosedAnswer(before, last, now, next, instant);
    assert vs == before + [last];
  }

  // ----- The canonicalization flag -----

  /** The first stored row with these bytes from this archive record. */
  function PriorSameSource(vs: seq<Version>, hash: string, archiveId: string): (r: Option<Version>)
    ensures r.Some? ==> r.value in vs && r.value.hash == hash && r.value.archiveId == archiveId
    ensures r.None? ==> forall v :: v in vs ==> v.hash != hash || v.archiveId != archiveId
  {
    if vs == [] then None
    else if vs[0].hash == hash && vs[0].archiveId == archiveId then Some(vs[0])
    else PriorSameSource(vs[1..], hash, archiveId)
  }

  /** The flag that `publish` computes inline. */
  function CanonicalizationFlag(vs: seq<Version>, hash: string, archiveId: string, parserId: string): (r: bool) {
    var prior := PriorSameSource(vs, hash, archiveId);
    prior.Some? && prior.value.parserId != parserId
  }

  /**
   Looking only at the first row with the same bytes is enough: once the (bytes, parser)
   pair is known to be new, the flag says that some stored row is a canonicalization partner.
   */
  lemma FlagMeaning(vs: seq<Version>, hash: string, archiveId: string, parserId: string)
    requires forall v :: v in vs ==> v.hash != hash || v.parserId != parserId
    ensures CanonicalizationFlag(vs, hash, archiveId, parserId) <==>
            exists v :: v in vs && IsCanonicalizationUpdate(v, hash, archiveId, parserId)
  {
    var prior := PriorSameSource(vs, hash, archiveId);
    if prior.Some? {
      assert IsCanonicalizationUpdate(prior.value, hash, archiveId, parserId);
    }
  }
}
