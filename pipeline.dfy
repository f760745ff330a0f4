/**
 * `Hackfoldrs.gen_foldrs`: from the prior index, the pads changed since the last run and
 * the backends' answers, to the new index and the per-folder tables.
 */
module Pipeline {
  import opened Base
  import opened Strings
  import opened Urls
  import opened Json
  import opened Times
  import opened Extract
  import opened Backends
  import opened Index

  /** The prior index can be loaded (an unreadable file counts as an empty index). */
  ghost predicate PriorOk(prior: Option<map<string, Value>>) {
    prior.None? || LoadsOk(prior.value)
  }

  ghost function PriorIndex(prior: Option<map<string, Value>>): (idx: Index)
    requires PriorOk(prior)
    ensures forall id :: id in idx ==> HasPadSet(idx[id])
  {
    if prior.None? then map[] else Loaded(prior.value)
  }

  /** The folders found in this run's pads. */
  function Found(pads: seq<Pad>, diffPads: set<string>): map<string, FolderRef> {
    Accumulate(ScanOf(Scanned(pads, diffPads)))
  }

  /** The merged map of the prior index and this run's findings. */
  ghost function Mixed(prior: Option<map<string, Value>>, pads: seq<Pad>, diffPads: set<string>): (mix: Index)
    requires PriorOk(prior)
    ensures forall id :: id in mix ==> HasPadSet(mix[id])
  {
    MixedPadSets(PriorIndex(prior), Found(pads, diffPads));
    MixIndex(PriorIndex(prior), Found(pads, diffPads))
  }

  /** The fetch loop keeps every record's pad set. */
  lemma FetchedPadSets(mix: Index, net: Responses)
    requires forall id :: id in mix ==> HasPadSet(mix[id])
    requires FetchesOk(mix, net)
    ensures forall id :: id in Fetched(mix, net) ==> HasPadSet(Fetched(mix, net)[id])
  {
    FetchedSpec(mix, net);
  }

  /** Everything `gen_foldrs` completes without an exception. */
  ghost predicate RunsOk(prior: Option<map<string, Value>>, pads: seq<Pad>, diffPads: set<string>, net: Responses) {
    PriorOk(prior) && FetchesOk(Mixed(prior, pads, diffPads), net)
  }

  /** What `gen_foldrs` writes: the new index and the tables of the resolved folders. */
  ghost function Output(prior: Option<map<string, Value>>, pads: seq<Pad>, diffPads: set<string>, net: Responses): (Index, map<string, Table>)
    requires RunsOk(prior, pads, diffPads, net)
  {
    var mix := Mixed(prior, pads, diffPads);
    FetchedPadSets(mix, net);
    (CleanIndex(Fetched(mix, net)), Tables(mix, net))
  }

  /** `gen_foldrs` (hackfoldrs.py:158-191), with the prior `foldrs.json` (`None` when it cannot
      be read), the pads and the backends' answers as inputs and the files it writes as
      its result. */
  method GenFolders(prior: Option<map<string, Value>>, pads: seq<Pad>, diffPads: set<string>, net: Responses)
    returns (r: Result<(Index, map<string, Table>)>)
    ensures r.Ok? <==> RunsOk(prior, pads, diffPads, net)
    ensures r.Ok? ==> r.value == Output(prior, pads, diffPads, net)
    ensures r.Err? ==>
      || (prior.Some? && exists id :: id in prior.value && LoadRecord(prior.value[id]) == Err(r.error))
      || (PriorOk(prior) && exists id :: id in Mixed(prior, pads, diffPads) && Outcome(net, id, Mixed(prior, pads, diffPads)[id]) == Err(r.error))
  {
    var loaded := LoadIndex(prior);
    if loaded.Err? {
      return Err(loaded.error);
    }
    assert PriorOk(prior) && loaded.value == PriorIndex(prior);
    var found := FindNewFolders(pads, diffPads);
    var mix := MixIndex(loaded.value, found);
    ghost var spec := Mixed(prior, pads, diffPads);
    assert mix == spec;
    var fetched := FetchAll(mix, net);
    if fetched.Err? {
      assert exists id :: id in spec && Outcome(net, id, spec[id]) == Err(fetched.error);
      return Err(fetched.error);
    }
    FetchedPadSets(mix, net);
    var clean := CleanIndex(fetched.value.0);
    r := Ok((clean, fetched.value.1));
  }

  /** The record of `id` after the fetch loop. */
  ghost function Stamp(prior: Option<map<string, Value>>, pads: seq<Pad>, diffPads: set<string>, net: Responses, id: string): Fields
    requires RunsOk(prior, pads, diffPads, net) && id in Mixed(prior, pads, diffPads)
  {
    FetchedAt(Mixed(prior, pads, diffPads), net, id);
    Refreshed(Mixed(prior, pads, diffPads)[id], Outcome(net, id, Mixed(prior, pads, diffPads)[id]).value)
  }

  /** The written index, for one folder: listed exactly when its stamped record has a
      source, and then that record with its pads sorted. */
  lemma WrittenAt(prior: Option<map<string, Value>>, pads: seq<Pad>, diffPads: set<string>, net: Responses, id: string)
    requires RunsOk(prior, pads, diffPads, net)
    ensures id in Output(prior, pads, diffPads, net).0 ==> id in Mixed(prior, pads, diffPads)
    ensures id in Mixed(prior, pads, diffPads) ==>
      && HasPadSet(Stamp(prior, pads, diffPads, net, id))
      && (id in Output(prior, pads, diffPads, net).0 <==> SourceKey in Stamp(prior, pads, diffPads, net, id))
      && (id in Output(prior, pads, diffPads, net).0 ==>
            Output(prior, pads, diffPads, net).0[id] == CleanRecord(Stamp(prior, pads, diffPads, net, id)))
  {
    var mix := Mixed(prior, pads, diffPads);
    FetchedSpec(mix, net);
    FetchedPadSets(mix, net);
    if id in mix {
      FetchedAt(mix, net, id);
    }
  }

  /** A loaded prior record has a source exactly when the stored one had. */
  lemma LoadedSource(prior: Option<map<string, Value>>, id: string)
    requires PriorOk(prior)
    ensures id in PriorIndex(prior) && SourceKey in PriorIndex(prior)[id] <==>
      prior.Some? && id in prior.value && prior.value[id].Record? && SourceKey in prior.value[id].fields
  {
  }

  /** A merged record has a source exactly when its loaded prior record had. */
  lemma MixedSource(prior: Option<map<string, Value>>, pads: seq<Pad>, diffPads: set<string>, id: string)
    requires PriorOk(prior) && id in Mixed(prior, pads, diffPads)
    ensures SourceKey in Mixed(prior, pads, diffPads)[id] <==> id in PriorIndex(prior) && SourceKey in PriorIndex(prior)[id]
  {
    var records := PriorIndex(prior);
    var rec := MixRecord(records, Found(pads, diffPads), id);
    assert Mixed(prior, pads, diffPads)[id] == rec;
    MixedKey(records, Found(pads, diffPads), id, SourceKey);
  }

  /** The written index holds exactly the folders whose prior record had a source, and the
      folders of the prior index or of this run's pads that resolved now. A folder the prior
      index listed therefore stays listed when it fails to resolve. */
  lemma IndexedFolders(prior: Option<map<string, Value>>, pads: seq<Pad>, diffPads: set<string>, net: Responses, id: string)
    requires RunsOk(prior, pads, diffPads, net)
    ensures id in Output(prior, pads, diffPads, net).0 <==>
      || (prior.Some? && id in prior.value && prior.value[id].Record? && SourceKey in prior.value[id].fields)
      || (id in Mixed(prior, pads, diffPads) && Outcome(net, id, Mixed(prior, pads, diffPads)[id]).value.Resolved?)
    ensures id in Mixed(prior, pads, diffPads) <==> (prior.Some? && id in prior.value) || id in Found(pads, diffPads)
  {
    var mix := Mixed(prior, pads, diffPads);
    WrittenAt(prior, pads, diffPads, net, id);
    LoadedSource(prior, id);
    if id in mix {
      MixedSource(prior, pads, diffPads, id);
      FetchedAt(mix, net, id);
      assert SourceKey in Stamp(prior, pads, diffPads, net, id) <==>
        SourceKey in mix[id] || Outcome(net, id, mix[id]).value.Resolved?;
    }
  }

  /** The pads of this run's pads that link to `id`. */
  ghost function LinkingPads(pads: seq<Pad>, diffPads: set<string>, id: string): set<string> {
    set p | p in pads && p.padId in diffPads && PadLinksTo(p, id) :: p.padId
  }

  /** A merged record's pads: those of its prior record and the changed pads linking to it. */
  lemma MixedPads(prior: Option<map<string, Value>>, pads: seq<Pad>, diffPads: set<string>, id: string)
    requires PriorOk(prior) && id in Mixed(prior, pads, diffPads)
    ensures Mixed(prior, pads, diffPads)[id][PadsKey].elems == PriorPads(PriorIndex(prior), id) + LinkingPads(pads, diffPads, id)
  {
    var found := Found(pads, diffPads);
    if id in found {
      ExtractPadsByPad(pads, diffPads, id);
    } else {
      ExtractKeysByPad(pads, diffPads, id);
      assert LinkingPads(pads, diffPads, id) == {};
    }
  }

  /** Each folder of the written index lists, sorted and without repeats, the pads its prior
      record listed together with every changed pad that links to it. */
  lemma IndexedPads(prior: Option<map<string, Value>>, pads: seq<Pad>, diffPads: set<string>, net: Responses, id: string)
    requires RunsOk(prior, pads, diffPads, net)
    requires id in Output(prior, pads, diffPads, net).0
    ensures var rec := Output(prior, pads, diffPads, net).0[id];
      && PadsKey in rec && rec[PadsKey].Items?
      && StrictlyIncreasing(rec[PadsKey].xs)
      && forall x :: x in rec[PadsKey].xs <==> x in PriorPads(PriorIndex(prior), id) || x in LinkingPads(pads, diffPads, id)
  {
    var mix := Mixed(prior, pads, diffPads);
    WrittenAt(prior, pads, diffPads, net, id);
    FetchedAt(mix, net, id);
    var stamp := Stamp(prior, pads, diffPads, net, id);
    assert stamp == Refreshed(mix[id], Outcome(net, id, mix[id]).value);
    assert PadsKey != SourceKey && PadsKey != UpdatedKey;
    assert stamp[PadsKey] == mix[id][PadsKey];
    MixedPads(prior, pads, diffPads, id);
  }

  /** A folder that resolved in this run carries this run's source and time, and its table
      is written; one that did not keeps the source and time its prior record had, and no
      table is written for it. */
  lemma IndexedStamps(prior: Option<map<string, Value>>, pads: seq<Pad>, diffPads: set<string>, net: Responses, id: string)
    requires RunsOk(prior, pads, diffPads, net)
    requires id in Mixed(prior, pads, diffPads)
    ensures var res := Outcome(net, id, Mixed(prior, pads, diffPads)[id]).value;
      var (index, tables) := Output(prior, pads, diffPads, net);
      && (res.Resolved? ==>
            && id in index
            && index[id][SourceKey] == Str(SourceName(res.source))
            && index[id][UpdatedKey] == Str(IsoZ(res.updatedAt))
            && id in tables && tables[id] == res.csv)
      && (res.Unresolved? ==>
            && id !in tables
            && forall k :: k in PriorRecord(PriorIndex(prior), id) && (k == SourceKey || k == UpdatedKey) && id in index ==>
                 index[id][k] == PriorIndex(prior)[id][k])
  {
    var mix := Mixed(prior, pads, diffPads);
    WrittenAt(prior, pads, diffPads, net, id);
    FetchedAt(mix, net, id);
    var res := Outcome(net, id, mix[id]).value;
    var stamp := Stamp(prior, pads, diffPads, net, id);
    assert stamp == Refreshed(mix[id], res);
    assert mix[id] == MixRecord(PriorIndex(prior), Found(pads, diffPads), id);
    assert SourceKey != PadsKey && UpdatedKey != PadsKey && SourceKey != UrlKey && UpdatedKey != UrlKey;
  }

  /** A folder found in this run and written to the index carries the URL it was found
      under. */
  lemma IndexedFoundUrl(prior: Option<map<string, Value>>, pads: seq<Pad>, diffPads: set<string>, net: Responses, id: string)
    requires RunsOk(prior, pads, diffPads, net)
    requires id in Found(pads, diffPads) && id in Output(prior, pads, diffPads, net).0
    ensures UrlKey in Output(prior, pads, diffPads, net).0[id]
    ensures Output(prior, pads, diffPads, net).0[id][UrlKey] == Str(Found(pads, diffPads)[id].url)
  {
    var mix := Mixed(prior, pads, diffPads);
    var found := Found(pads, diffPads);
    WrittenAt(prior, pads, diffPads, net, id);
    var stamp := Stamp(prior, pads, diffPads, net, id);
    assert mix[id] == MixRecord(PriorIndex(prior), found, id);
    assert mix[id][UrlKey] == Str(found[id].url);
    FetchedAt(mix, net, id);
    assert stamp == Refreshed(mix[id], Outcome(net, id, mix[id]).value);
    assert UrlKey in mix[id] && UrlKey != SourceKey && UrlKey != UpdatedKey;
    assert stamp[UrlKey] == mix[id][UrlKey];
  }

  /** That URL is the folder URL of the first link to the folder in this run's pads. */
  lemma IndexedUrl(prior: Option<map<string, Value>>, pads: seq<Pad>, diffPads: set<string>, net: Responses, id: string)
    requires RunsOk(prior, pads, diffPads, net)
    requires id in Found(pads, diffPads) && id in Output(prior, pads, diffPads, net).0
    ensures exists k ::
      (FirstLinkAt(ScanOf(Scanned(pads, diffPads)), k, id)
       && Output(prior, pads, diffPads, net).0[id][UrlKey] == Str(FolderUrl(ScanOf(Scanned(pads, diffPads))[k].1)))
  {
    IndexedFoundUrl(prior, pads, diffPads, net, id);
    AccumulateUrl(ScanOf(Scanned(pads, diffPads)), id);
  }

  /** The next run loads back exactly the records this run wrote, with the listed pads as a
      set again. */
  lemma ReloadWritten(prior: Option<map<string, Value>>, pads: seq<Pad>, diffPads: set<string>, net: Responses, id: string)
    requires RunsOk(prior, pads, diffPads, net)
    requires id in Output(prior, pads, diffPads, net).0
    ensures id in Mixed(prior, pads, diffPads)
    ensures LoadRecord(Record(Output(prior, pads, diffPads, net).0[id])) == Ok(Stamp(prior, pads, diffPads, net, id))
  {
    WrittenAt(prior, pads, diffPads, net, id);
    ReloadClean(Stamp(prior, pads, diffPads, net, id));
  }

  /** A folder found in this run takes the URL it was found under into the merged map. */
  lemma MixedUrl(prior: Option<map<string, Value>>, pads: seq<Pad>, diffPads: set<string>, id: string)
    requires PriorOk(prior) && id in Found(pads, diffPads)
    ensures id in Mixed(prior, pads, diffPads) && UrlKey in Mixed(prior, pads, diffPads)[id]
    ensures Mixed(prior, pads, diffPads)[id][UrlKey] == Str(Found(pads, diffPads)[id].url)
  {
    assert Mixed(prior, pads, diffPads)[id] == MixRecord(PriorIndex(prior), Found(pads, diffPads), id);
  }

  /** A folder found in this run gets version 2.0 exactly when the host of the first link
      to it contains "beta" (for links as `urlparse` returns them). */
  lemma FoundVersion(prior: Option<map<string, Value>>, pads: seq<Pad>, diffPads: set<string>, id: string)
    requires PriorOk(prior) && id in Found(pads, diffPads)
    requires forall p, l :: p in pads && l in p.hrefs ==> WellFormed(l)
    ensures exists k ::
      (FirstLinkAt(ScanOf(Scanned(pads, diffPads)), k, id)
       && (VersionOf(Mixed(prior, pads, diffPads)[id]) == Ok(V2) <==> Contains(ScanOf(Scanned(pads, diffPads))[k].1.netloc, "beta")))
  {
    var scan := ScanOf(Scanned(pads, diffPads));
    var url := Found(pads, diffPads)[id].url;
    MixedUrl(prior, pads, diffPads, id);
    FoundHost(pads, diffPads, id);
    var k :| FirstLinkAt(scan, k, id) && NetlocOf(url) == scan[k].1.netloc;
    assert VersionOf(Mixed(prior, pads, diffPads)[id]) == Ok(V2) <==> Contains(NetlocOf(url), "beta");
  }
}
