/**
 The citation backfill: versions whose number of citation entries already equals their number
 of nodes are skipped, every other one gets an entry for each node.
 */
module Backfill {
  import opened Prelude
  import opened LegalNodes
  import opened IngestModel

  /** A version with its node rows other than DOCUMENT rows, and what its entries repeat. */
  datatype VersionRow = VersionRow(
    id: string, hash: string, url: string, urlLawId: Option<string>, documentNumber: Option<string>,
      nodes: seq<FlatNode>)

  /** Entries by version id and node id, which the database keeps unique together. */
  type Entries = map<(string, string), Citation>

  /** `resolveLawId`: the law id of the URL, else the document number. */
  function ResolveLawId(v: VersionRow): (r: Option<string>) {
    if v.urlLawId.Some? then v.urlLawId else v.documentNumber
  }

  /** `buildCitationEntryData`. */
  function EntryFor(v: VersionRow, n: FlatNode): (c: Citation) {
    Citation(v.id, n.id, CitationKey(ResolveLawId(v), n.sourceLocator), n.sourceLocator, n.text, v.url,
             if n.contentHash != "" then n.contentHash else v.hash)
  }

  function NodeIds(v: VersionRow): (r: set<string>) {
    set n | n in v.nodes :: n.id
  }

  function IndexedIds(entries: Entries, versionId: string): (r: set<string>) {
    set k | k in entries && k.0 == versionId :: k.1
  }

  /** Every node of the version has an entry. */
  predicate FullyIndexed(entries: Entries, v: VersionRow) {
    forall n :: n in v.nodes ==> (v.id, n.id) in entries
  }

  /** Every entry of the version belongs to one of its nodes. */
  predicate NoStray(entries: Entries, v: VersionRow) {
    forall k :: k in entries && k.0 == v.id ==> k.1 in NodeIds(v)
  }

  lemma {:induction false} NodeIdsCount(nodes: seq<FlatNode>)
    requires UniqueIds(nodes)
    ensures |set n | n in nodes :: n.id| == |nodes|
    decreases |nodes|
  {
    var all := set n | n in nodes :: n.id;
    if nodes == [] {
      assert all == {};
    } else {
      var before, last := nodes[..|nodes| - 1], nodes[|nodes| - 1];
      assert nodes == before + [last];
      NodeIdsCount(before);
      var fewer := set n | n in before :: n.id;
      assert all == fewer + {last.id};
      assert last.id !in fewer;
    }
  }

  lemma SubsetOfSameSize(a: set<string>, b: set<string>)
    requires |a| == |b|
    ensures a <= b <==> b <= a
  {
    if a <= b {
      assert |b - a| == 0;
    }
    if b <= a {
      assert |a - b| == 0;
    }
  }

  /**
   When the count matches, the version is fully indexed exactly when no entry belongs to
   anything but its nodes.
   */
  lemma SkipExact(entries: Entries, v: VersionRow)
    requires UniqueIds(v.nodes) && |IndexedIds(entries, v.id)| == |v.nodes|
    ensures FullyIndexed(entries, v) <==> NoStray(entries, v)
  {
    NodeIdsCount(v.nodes);
    SubsetOfSameSize(IndexedIds(entries, v.id), NodeIds(v));
    IndexedMeaning(entries, v);
  }

  lemma IndexedMeaning(entries: Entries, v: VersionRow)
    ensures FullyIndexed(entries, v) <==> NodeIds(v) <= IndexedIds(entries, v.id)
    ensures NoStray(entries, v) <==> IndexedIds(entries, v.id) <= NodeIds(v)
  {
    forall id
      ensures id in IndexedIds(entries, v.id) <==> (v.id, id) in entries
    {
      IndexedAt(entries, v.id, id);
    }
    if NodeIds(v) <= IndexedIds(entries, v.id) {
      forall n | n in v.nodes
        ensures (v.id, n.id) in entries
      {
        assert n.id in NodeIds(v);
      }
    }
    if IndexedIds(entries, v.id) <= NodeIds(v) {
      forall k | k in entries && k.0 == v.id
        ensures k.1 in NodeIds(v)
      {
        assert k.1 in IndexedIds(entries, v.id);
      }
    }
  }

  /** Without stray entries, the skip fires exactly for fully indexed versions. */
  lemma SkipFiresWhenIndexed(entries: Entries, v: VersionRow)
    requires UniqueIds(v.nodes) && NoStray(entries, v)
    ensures |IndexedIds(entries, v.id)| == |v.nodes| <==> FullyIndexed(entries, v)
  {
    NodeIdsCount(v.nodes);
    IndexedMeaning(entries, v);
    if FullyIndexed(entries, v) {
      assert IndexedIds(entries, v.id) == NodeIds(v);
    }
    if |IndexedIds(entries, v.id)| == |v.nodes| {
      SkipExact(entries, v);
    }
  }

  /** Both have no law id (an empty one counts as none), or both the same. */
  predicate SameLaw(a: Option<string>, b: Option<string>) {
    (Truthy(a) <==> Truthy(b)) && (Truthy(a) && Truthy(b) ==> a.value == b.value)
  }

  /**
   The backfill writes what publishing would have written exactly when both go by the same law:
   publishing by the id it was asked for, the backfill by the URL or else the document number.
   */
  lemma WritesWhatPublishWrites(q: Request, versionId: string, v: VersionRow, n: FlatNode)
    requires v.id == versionId && v.hash == q.hash && v.url == q.url
    ensures EntryFor(v, n) == CitationOf(q, versionId, n) <==>
              SameLaw(if v.urlLawId.None? then v.documentNumber else v.urlLawId, q.lawId)
  {
    var law, l := ResolveLawId(v), n.sourceLocator;
    var a, b := CitationKey(law, l), CitationKey(q.lawId, l);
    if Truthy(law) {
      assert a[..|a| - |l| - 1] == law.value;
    }
    if Truthy(q.lawId) {
      assert b[..|b| - |l| - 1] == q.lawId.value;
    }
  }

  ghost predicate Rows(versions: seq<VersionRow>) {
    (forall i :: 0 <= i < |versions| ==> UniqueIds(versions[i].nodes)) &&
    forall i, j :: 0 <= i < j < |versions| ==> versions[i].id != versions[j].id
  }

  /** The run passes the version by: it has no nodes, or as many entries as nodes. */
  predicate Skipped(entries: Entries, v: VersionRow) {
    v.nodes == [] || |IndexedIds(entries, v.id)| == |v.nodes|
  }

  /** The counts match although some node has no entry. */
  predicate Hidden(entries: Entries, v: VersionRow) {
    |IndexedIds(entries, v.id)| == |v.nodes| && !FullyIndexed(entries, v)
  }

  /** A version is hidden exactly when the counts match and stray entries stand in for missing ones. */
  lemma HiddenMeansStray(entries: Entries, v: VersionRow)
    requires UniqueIds(v.nodes)
    ensures Hidden(entries, v) <==> |IndexedIds(entries, v.id)| == |v.nodes| && !NoStray(entries, v)
  {
    if |IndexedIds(entries, v.id)| == |v.nodes| {
      SkipExact(entries, v);
    }
  }

  /** The two tables have the same entries under this version. */
  ghost predicate SameEntries(a: Entries, b: Entries, versionId: string) {
    forall id :: (versionId, id) in a <==> (versionId, id) in b
  }

  lemma IndexedAt(entries: Entries, versionId: string, id: string)
    ensures id in IndexedIds(entries, versionId) <==> (versionId, id) in entries
  {
    if (versionId, id) in entries {
      var k := (versionId, id);
      assert k in entries && k.0 == versionId && k.1 == id;
    }
  }

  lemma SameEntriesMeaning(a: Entries, b: Entries, versionId: string)
    ensures SameEntries(a, b, versionId) <==> IndexedIds(a, versionId) == IndexedIds(b, versionId)
  {
    forall id
      ensures id in IndexedIds(a, versionId) <==> (versionId, id) in a
      ensures id in IndexedIds(b, versionId) <==> (versionId, id) in b
    {
      IndexedAt(a, versionId, id);
      IndexedAt(b, versionId, id);
    }
  }

  // ----- What a run leaves -----

  /**
   Which nodes have an entry after a committed visit without an error: as before if passed by,
   else also all of the version's.
   */
  function IdsAfter(before: Entries, v: VersionRow): (r: set<string>) {
    IndexedIds(before, v.id) + if Skipped(before, v) then {} else NodeIds(v)
  }

  /** The entries of the version after a committed visit without an error. */
  predicate Visited(before: Entries, after: Entries, v: VersionRow) {
    IndexedIds(after, v.id) == IdsAfter(before, v)
  }

  /** After the run the version is fully indexed, exactly when it was not hidden before. */
  predicate Settled(before: Entries, after: Entries, v: VersionRow) {
    FullyIndexed(after, v) <==> !Hidden(before, v)
  }

  lemma VisitedSettles(before: Entries, after: Entries, v: VersionRow)
    requires UniqueIds(v.nodes) && Visited(before, after, v)
    ensures Settled(before, after, v)
  {
    IndexedMeaning(before, v);
    IndexedMeaning(after, v);
  }

  /** A stray entry stays, and none is added. */
  lemma StraysStay(before: Entries, after: Entries, v: VersionRow)
    requires IndexedIds(before, v.id) <= IndexedIds(after, v.id) <= IndexedIds(before, v.id) + NodeIds(v)
    ensures NoStray(before, v) <==> NoStray(after, v)
  {
    IndexedMeaning(before, v);
    IndexedMeaning(after, v);
  }

  /**
   After a committed run without errors, the next run passes a version by exactly when the first
   one did or when the version had no stray entry.
   */
  lemma PassedByNext(before: Entries, after: Entries, v: VersionRow)
    requires UniqueIds(v.nodes) && Visited(before, after, v)
    ensures Skipped(after, v) <==> Skipped(before, v) || NoStray(before, v)
  {
    if !Skipped(before, v) {
      StraysStay(before, after, v);
      VisitedSettles(before, after, v);
      if NoStray(before, v) {
        SkipFiresWhenIndexed(after, v);
      } else {
        HiddenMeansStray(after, v);
      }
    }
  }

  /** A run has gone through without errors, and its writes were committed. */
  predicate Committed(before: Entries, after: Entries, versions: seq<VersionRow>) {
    forall i :: 0 <= i < |versions| ==> Visited(before, after, versions[i])
  }

  predicate AllSkipped(entries: Entries, versions: seq<VersionRow>) {
    forall i :: 0 <= i < |versions| ==> Skipped(entries, versions[i])
  }

  /**
   The second run touches nothing exactly when each version was passed by in the first one
   already or had no stray entry; in particular always when there are no strays.
   */
  lemma SecondRunTouchesNothing(before: Entries, after: Entries, versions: seq<VersionRow>)
    requires Rows(versions) && Committed(before, after, versions)
    ensures AllSkipped(after, versions) <==>
              forall i :: 0 <= i < |versions| ==> Skipped(before, versions[i]) || NoStray(before, versions[i])
  {
    forall i | 0 <= i < |versions|
      ensures Skipped(after, versions[i]) <==> Skipped(before, versions[i]) || NoStray(before, versions[i])
    {
      PassedByNext(before, after, versions[i]);
    }
  }

  /** A version with one node and one stray entry is hidden: the counts match, the node has no entry. */
  lemma StrayHidesNode(n: FlatNode, stray: Citation)
    requires n.id != "stray"
    ensures var v := VersionRow("v", "h", "url", None, None, [n]);
            Hidden(map[("v", "stray") := stray], v) && Skipped(map[("v", "stray") := stray], v)
  {
    var v := VersionRow("v", "h", "url", None, None, [n]);
    var entries := map[("v", "stray") := stray];
    assert ("v", "stray") in entries;
    IndexedAt(entries, "v", "stray");
    assert IndexedIds(entries, "v") == {"stray"};
    assert n in v.nodes;
  }

  /** The entry at `k` was written for a node of one of the versions. */
  ghost predicate WrittenFor(entries: Entries, k: (string, string), versions: seq<VersionRow>) {
    k in entries &&
    exists v, n :: v in versions && n in v.nodes && k == (v.id, n.id) && entries[k] == EntryFor(v, n)
  }

  /** Every entry that is new or changed was written for a node of one of the versions; none is gone. */
  ghost predicate OnlyWrites(before: Entries, after: Entries, versions: seq<VersionRow>) {
    (forall k :: k in before ==> k in after) &&
    forall k :: k in after && (k !in before || after[k] != before[k]) ==> WrittenFor(after, k, versions)
  }

  lemma OnlyWritesMore(first: Entries, before: Entries, after: Entries, versions: seq<VersionRow>, v: VersionRow)
    requires OnlyWrites(first, before, versions) && OnlyWrites(before, after, [v])
    ensures OnlyWrites(first, after, versions + [v])
  {
    forall k | k in after && (k !in first || after[k] != first[k])
      ensures WrittenFor(after, k, versions + [v])
    {
      if k !in before || after[k] != before[k] {
        assert WrittenFor(after, k, [v]);
      } else {
        assert WrittenFor(before, k, versions);
      }
    }
  }

  /** Writes for one version leave the other versions' entries alone and add only its own nodes. */
  lemma WritesStayInside(before: Entries, after: Entries, v: VersionRow)
    requires OnlyWrites(before, after, [v])
    ensures forall id :: id != v.id ==> SameEntries(before, after, id)
    ensures IndexedIds(before, v.id) <= IndexedIds(after, v.id) <= IndexedIds(before, v.id) + NodeIds(v)
  {
    forall id, node | id != v.id
      ensures (id, node) in before <==> (id, node) in after
    {
      assert (id, node) in after && (id, node) !in before ==> WrittenFor(after, (id, node), [v]);
    }
    forall node
      ensures (v.id, node) in before ==> (v.id, node) in after
      ensures (v.id, node) in after ==> (v.id, node) in before || node in NodeIds(v)
      ensures node in IndexedIds(before, v.id) <==> (v.id, node) in before
      ensures node in IndexedIds(after, v.id) <==> (v.id, node) in after
    {
      IndexedAt(before, v.id, node);
      IndexedAt(after, v.id, node);
      assert (v.id, node) in after && (v.id, node) !in before ==> WrittenFor(after, (v.id, node), [v]);
    }
  }

  lemma OneWrite(first: Entries, before: Entries, v: VersionRow, n: FlatNode)
    requires OnlyWrites(first, before, [v]) && n in v.nodes
    ensures OnlyWrites(first, before[(v.id, n.id) := EntryFor(v, n)], [v])
  {
    var after := before[(v.id, n.id) := EntryFor(v, n)];
    forall k | k in after && (k !in first || after[k] != first[k])
      ensures WrittenFor(after, k, [v])
    {
      if k == (v.id, n.id) {
        assert v in [v];
      } else {
        assert WrittenFor(before, k, [v]);
      }
    }
  }

  /** The version has the strays it had, and the entries it had if it was passed by. */
  ghost predicate Kept(before: Entries, after: Entries, v: VersionRow) {
    (NoStray(before, v) <==> NoStray(after, v)) && (Skipped(before, v) ==> SameEntries(before, after, v.id))
  }

  lemma SameEntriesFacts(a: Entries, b: Entries, v: VersionRow)
    requires SameEntries(a, b, v.id)
    ensures IndexedIds(a, v.id) == IndexedIds(b, v.id)
    ensures NoStray(a, v) <==> NoStray(b, v)
  {
    SameEntriesMeaning(a, b, v.id);
    IndexedMeaning(a, v);
    IndexedMeaning(b, v);
  }

  /** The version has the same entries, so the same strays, and is passed by alike. */
  ghost predicate SameVersion(a: Entries, b: Entries, v: VersionRow) {
    SameEntries(a, b, v.id) && IndexedIds(a, v.id) == IndexedIds(b, v.id) && (NoStray(a, v) <==> NoStray(b, v))
  }

  /** Writes for version `i` leave another version as it was. */
  lemma OtherVersion(before: Entries, after: Entries, versions: seq<VersionRow>, i: nat, j: nat)
    requires Rows(versions) && i < |versions| && j < |versions| && i != j
    requires OnlyWrites(before, after, [versions[i]])
    ensures SameVersion(before, after, versions[j])
  {
    assert versions[i].id != versions[j].id;
    WritesStayInside(before, after, versions[i]);
    SameEntriesFacts(before, after, versions[j]);
  }

  lemma VersionKept(first: Entries, before: Entries, after: Entries, v: VersionRow)
    requires (SameEntries(first, before, v.id) && OnlyWrites(before, after, [v]) &&
              (Skipped(before, v) ==> before == after)) ||
             (Kept(first, before, v) && SameVersion(before, after, v))
    ensures Kept(first, after, v)
  {
    if SameEntries(first, before, v.id) {
      SameEntriesFacts(first, before, v);
      if OnlyWrites(before, after, [v]) {
        WritesStayInside(before, after, v);
        StraysStay(before, after, v);
      }
    }
  }

  /** The versions from `i` on have the entries they had at first; those before have been visited. */
  ghost predicate Halfway(first: Entries, now: Entries, versions: seq<VersionRow>, i: nat)
    requires i <= |versions|
  {
    OnlyWrites(first, now, versions[..i]) &&
    (forall j :: i <= j < |versions| ==> SameEntries(first, now, versions[j].id)) &&
    forall j :: 0 <= j < i ==> Kept(first, now, versions[j])
  }

  lemma VisitDone(first: Entries, before: Entries, after: Entries, versions: seq<VersionRow>, i: nat)
    requires Rows(versions) && i < |versions| && Halfway(first, before, versions, i)
    requires OnlyWrites(before, after, [versions[i]]) && (Skipped(before, versions[i]) ==> before == after)
    ensures Halfway(first, after, versions, i + 1)
  {
    assert versions[..i + 1] == versions[..i] + [versions[i]];
    OnlyWritesMore(first, before, after, versions[..i], versions[i]);
    forall j | i < j < |versions|
      ensures SameEntries(first, after, versions[j].id)
    {
      OtherVersion(before, after, versions, i, j);
    }
    forall j | 0 <= j <= i
      ensures Kept(first, after, versions[j])
    {
      if j < i {
        OtherVersion(before, after, versions, i, j);
      }
      VersionKept(first, before, after, versions[j]);
    }
  }

  /** What a visit leaves depends on the version's entries only. */
  lemma VisitedSame(a: Entries, a': Entries, b: Entries, b': Entries, v: VersionRow)
    requires IndexedIds(a, v.id) == IndexedIds(a', v.id) && IndexedIds(b, v.id) == IndexedIds(b', v.id)
    ensures Visited(a, b, v) <==> Visited(a', b', v)
  {
  }

  lemma VisitedStays(first: Entries, before: Entries, after: Entries, versions: seq<VersionRow>, i: nat, j: nat)
    requires Rows(versions) && i < |versions| && j <= i && OnlyWrites(before, after, [versions[i]])
    requires SameEntries(first, before, versions[i].id) && Visited(before, after, versions[i])
    requires j < i ==> Visited(first, before, versions[j])
    ensures Visited(first, after, versions[j])
  {
    if j < i {
      OtherVersion(before, after, versions, i, j);
      VisitedSame(first, first, before, after, versions[j]);
    } else {
      SameEntriesFacts(first, before, versions[i]);
      VisitedSame(first, before, after, after, versions[i]);
    }
  }

  class Job {
    var entries: Entries
    var alreadyIndexed: nat
    var touched: nat
    var errors: seq<string>

    constructor (entries: Entries)
      ensures this.entries == entries && alreadyIndexed == 0 && touched == 0 && errors == []
    {
      this.entries, alreadyIndexed, touched, errors := entries, 0, 0, [];
    }

    /** The upserts of one version; an upsert may throw, and what was written before it stays. */
    method IndexVersion(commit: bool, v: VersionRow, throws: (string, string) -> bool) returns (failed: bool)
      modifies this`entries
      ensures OnlyWrites(old(entries), entries, [v])
      ensures commit && !failed ==> FullyIndexed(entries, v)
      ensures failed ==> exists n :: n in v.nodes && throws(v.id, n.id)
      ensures !commit ==> entries == old(entries) && !failed
    {
      for i := 0 to |v.nodes|
        invariant OnlyWrites(old(entries), entries, [v])
        invariant commit ==> forall j :: 0 <= j < i ==> (v.id, v.nodes[j].id) in entries
        invariant !commit ==> entries == old(entries)
      {
        if commit {
          var n := v.nodes[i];
          if throws(v.id, n.id) {
            return true;
          }
          ghost var before := entries;
          entries := entries[(v.id, n.id) := EntryFor(v, n)];
          OneWrite(old(entries), before, v, n);
        }
      }
      return false;
    }

    /** One version: passed by when the counts match, else indexed. */
    method Visit(commit: bool, v: VersionRow, throws: (string, string) -> bool)
      modifies this
      ensures OnlyWrites(old(entries), entries, [v])
      ensures commit && errors == old(errors) ==> Visited(old(entries), entries, v)
      ensures Skipped(old(entries), v) ==> entries == old(entries) && touched == old(touched) && errors == old(errors)
      ensures !Skipped(old(entries), v) ==>
                (touched == old(touched) + 1 && errors == old(errors)) ||
                (touched == old(touched) && errors == old(errors) + [v.id])
      ensures !commit ==> entries == old(entries)
    {
      if v.nodes == [] {
        return;
      }
      if |IndexedIds(entries, v.id)| == |v.nodes| {
        alreadyIndexed := alreadyIndexed + 1;
        return;
      }
      var failed := IndexVersion(commit, v, throws);
      if failed {
        errors := errors + [v.id];
      } else {
        touched := touched + 1;
        IndexedMeaning(entries, v);
        WritesStayInside(old(entries), entries, v);
      }
    }

    /**
     One run over the versions. After a committed run without errors every version has the entries
     of `Visited`: it is fully indexed, unless it was hidden. No run adds or removes a stray entry,
     and a run touches nothing exactly when it passes every version by. A dry run writes nothing.
     */
    method Run(commit: bool, versions: seq<VersionRow>, throws: (string, string) -> bool)
      requires Rows(versions) && errors == [] && touched == 0
      modifies this
      ensures OnlyWrites(old(entries), entries, versions)
      ensures forall i :: 0 <= i < |versions| ==> Kept(old(entries), entries, versions[i])
      ensures commit && errors == [] ==> Committed(old(entries), entries, versions)
      ensures commit && errors == [] ==> forall i :: 0 <= i < |versions| ==> Settled(old(entries), entries, versions[i])
      ensures touched == 0 && errors == [] <==> AllSkipped(old(entries), versions)
      ensures !commit || AllSkipped(old(entries), versions) ==> entries == old(entries)
    {
      for i := 0 to |versions|
        invariant Halfway(old(entries), entries, versions, i)
        invariant commit && errors == [] ==> forall j :: 0 <= j < i ==> Visited(old(entries), entries, versions[j])
        invariant touched == 0 && errors == [] <==> forall j :: 0 <= j < i ==> Skipped(old(entries), versions[j])
        invariant !commit || (touched == 0 && errors == []) ==> entries == old(entries)
      {
        ghost var before := entries;
        ghost var failures := errors;
        SameEntriesFacts(old(entries), before, versions[i]);
        Visit(commit, versions[i], throws);
        VisitDone(old(entries), before, entries, versions, i);
        if commit && errors == [] {
          assert failures == [];
          forall j | 0 <= j <= i
            ensures Visited(old(entries), entries, versions[j])
          {
            VisitedStays(old(entries), before, entries, versions, i, j);
          }
        }
      }
      assert versions[..|versions|] == versions;
      if commit && errors == [] {
        forall i | 0 <= i < |versions|
          ensures Settled(old(entries), entries, versions[i])
        {
          VisitedSettles(old(entries), entries, versions[i]);
        }
      }
    }
  }
}
