/**
 * The folder index (`gen_foldrs`): the stages between the prior `foldrs.json` and the new
 * one: load the prior records, merge in the folders found this run, resolve every folder
 * against the backends, and keep the resolved folders with their pads as a sorted list.
 */
module Index {
  import opened Base
  import opened Strings
  import opened Urls
  import opened Json
  import opened Merge
  import opened Times
  import opened Extract
  import opened Backends

  /** A folder index: folder id to folder record. */
  type Index = map<string, Fields>

  const PadsKey := "hackpads"
  const UrlKey := "url"
  const SourceKey := "source"
  const UpdatedKey := "updated_at"

  /** The record keeps its pads as a Python set, as every record does between loading and
      cleaning. */
  predicate HasPadSet(rec: Fields) {
    PadsKey in rec && rec[PadsKey].Bag?
  }

  /** The record's pads field, or an empty list when it has none. */
  function PadsField(rec: Fields): Value {
    if PadsKey in rec then rec[PadsKey] else Items([])
  }

  /** The loading step for one prior record: its pads field (an empty list when missing)
      becomes a set, in place; a value that is not an object cannot be updated and raises
      `AttributeError`, a pads value that cannot be iterated raises `TypeError`. */
  function LoadRecord(v: Value): (r: Result<Fields>)
    ensures !v.Record? ==> r == Err(AttributeError)
    ensures v.Record? ==> (r.Ok? <==> !PadsField(v.fields).Literal?)
    ensures v.Record? && r.Err? ==> r.error == TypeError
    ensures r.Ok? ==>
      && HasPadSet(r.value)
      && r.value.Keys == v.fields.Keys + {PadsKey}
      && (forall k :: k in v.fields && k != PadsKey ==> r.value[k] == v.fields[k])
    ensures r.Ok? ==> r.value[PadsKey].elems == ToSet(PadsField(v.fields)).value
    ensures r.Ok? && PadsKey !in v.fields ==> r.value[PadsKey].elems == {}
    ensures r.Ok? && PadsField(v.fields).Items? ==>
      forall x :: x in r.value[PadsKey].elems <==> x in PadsField(v.fields).xs
  {
    if !v.Record? then Err(AttributeError)
    else
      var pads :- ToSet(PadsField(v.fields));
      Ok(v.fields[PadsKey := Bag(pads)])
  }

  /** Every prior record can be loaded. */
  ghost predicate LoadsOk(prior: map<string, Value>) {
    forall id :: id in prior ==> LoadRecord(prior[id]).Ok?
  }

  /** The prior index after loading. */
  ghost function Loaded(prior: map<string, Value>): (idx: Index)
    requires LoadsOk(prior)
    ensures idx.Keys == prior.Keys
    ensures forall id :: id in idx ==> HasPadSet(idx[id])
  {
    map id | id in prior :: LoadRecord(prior[id]).value
  }

  /** Loading `foldrs.json` (hackfoldrs.py:163-169): `None` when the file cannot be read,
      which yields an empty index; otherwise each record has its pads turned into a set, in
      place. Iteration order is not modelled: a failure reports the error of some record. */
  method LoadIndex(prior: Option<map<string, Value>>) returns (r: Result<Index>)
    ensures prior.None? ==> r == Ok(map[])
    ensures prior.Some? ==> (r.Ok? <==> LoadsOk(prior.value))
    ensures prior.Some? && r.Ok? ==> r.value == Loaded(prior.value)
    ensures prior.Some? && r.Err? ==> exists id :: id in prior.value && LoadRecord(prior.value[id]) == Err(r.error)
  {
    if prior.None? {
      return Ok(map[]);
    }
    var records := prior.value;
    var loaded: Index := map[];
    var todo := records.Keys;
    while todo != {}
      invariant LoadedSoFar(records, todo, loaded)
      decreases |todo|
    {
      var id :| id in todo;
      var rec := LoadRecord(records[id]);
      if rec.Err? {
        return Err(rec.error);
      }
      loaded := loaded[id := rec.value];
      todo := todo - {id};
    }
    LoadedAll(records, loaded);
    r := Ok(loaded);
  }

  /** The state of the load loop: the records not in `todo` are loaded. */
  ghost predicate LoadedSoFar(records: map<string, Value>, todo: set<string>, loaded: Index) {
    && todo <= records.Keys
    && loaded.Keys == records.Keys - todo
    && forall id :: id in loaded ==> LoadRecord(records[id]) == Ok(loaded[id])
  }

  lemma LoadedAll(records: map<string, Value>, loaded: Index)
    requires LoadedSoFar(records, {}, loaded)
    ensures LoadsOk(records) && loaded == Loaded(records)
  {
    assert loaded.Keys == records.Keys;
  }

  /** The record `_find_new_foldrs` built for `id`, as the fields `_merged_foldr` iterates
      (`{}` when the folder was not found this run). */
  function FoundFields(found: map<string, FolderRef>, id: string): NewFields {
    if id in found then [(UrlKey, Str(found[id].url)), (PadsKey, Bag(found[id].hackpads))] else []
  }

  lemma FoundFieldKeys(found: map<string, FolderRef>, id: string)
    ensures DistinctKeys(FoundFields(found, id))
    ensures KeysOf(FoundFields(found, id)) == if id in found then {UrlKey, PadsKey} else {}
  {
    var incoming := FoundFields(found, id);
    if id in found {
      assert incoming[0].0 == UrlKey && incoming[1].0 == PadsKey;
    }
  }

  /** The loaded prior record of `id`, or an empty record when the prior index lacks it. */
  function PriorRecord(records: Index, id: string): Fields {
    if id in records then records[id] else map[]
  }

  /** The pads a loaded prior record holds, if any. */
  function PriorPads(records: Index, id: string): set<string>
    requires id in records ==> HasPadSet(records[id])
  {
    if id in records then records[id][PadsKey].elems else {}
  }

  /** The pads that link to `id` in this run. */
  function FoundPads(found: map<string, FolderRef>, id: string): set<string> {
    if id in found then found[id].hackpads else {}
  }

  /** The merge of the prior record of `id` (or an empty one) with its found record (or an
      empty one), for a loaded prior record: the merge cannot fail; a folder found this run
      takes the newly found URL and the union of both pad sets, and keeps every other prior
      field. */
  function MixRecord(records: Index, found: map<string, FolderRef>, id: string): (rec: Fields)
    requires id in records ==> HasPadSet(records[id])
    ensures MergeFolder(PriorRecord(records, id), FoundFields(found, id)) == Ok(rec)
    ensures HasPadSet(rec) || (id !in records && id !in found)
    ensures HasPadSet(rec) ==> rec[PadsKey].elems == PriorPads(records, id) + FoundPads(found, id)
    ensures rec.Keys == PriorRecord(records, id).Keys + (if id in found then {UrlKey, PadsKey} else {})
    ensures id in found ==> rec[UrlKey] == Str(found[id].url)
    ensures forall k :: k in PriorRecord(records, id) && k != UrlKey && k != PadsKey ==> rec[k] == PriorRecord(records, id)[k]
  {
    var prior := PriorRecord(records, id);
    var incoming := FoundFields(found, id);
    FoundFieldKeys(found, id);
    MergeFolderOk(prior, incoming);
    MergeFolderFields(prior, incoming);
    MergeFolder(prior, incoming).value
  }

  /** The merged map (hackfoldrs.py:171-172): one merged record per id of the prior index
      or of this run's findings. */
  function MixIndex(records: Index, found: map<string, FolderRef>): (mix: Index)
    requires forall id :: id in records ==> HasPadSet(records[id])
    ensures mix.Keys == records.Keys + found.Keys
    ensures forall id :: id in mix ==> mix[id] == MixRecord(records, found, id)
  {
    map id | id in records.Keys + found.Keys :: MixRecord(records, found, id)
  }

  /** Merging adds no field other than the URL and the pads. */
  lemma MixedKey(records: Index, found: map<string, FolderRef>, id: string, k: string)
    requires id in records ==> HasPadSet(records[id])
    requires k != UrlKey && k != PadsKey
    ensures k in MixRecord(records, found, id) <==> k in PriorRecord(records, id)
  {
    var extra: set<string> := if id in found then {UrlKey, PadsKey} else {};
    assert MixRecord(records, found, id).Keys == PriorRecord(records, id).Keys + extra;
    assert k !in extra;
  }

  /** Merging the same findings into the merged map again changes nothing: running the
      mix twice over one set of changed pads gives the index of running it once. */
  lemma MixIdempotent(records: Index, found: map<string, FolderRef>)
    requires forall id :: id in records ==> HasPadSet(records[id])
    ensures forall id :: id in MixIndex(records, found) ==> HasPadSet(MixIndex(records, found)[id])
    ensures MixIndex(MixIndex(records, found), found) == MixIndex(records, found)
  {
    MixedPadSets(records, found);
    var mix := MixIndex(records, found);
    forall id | id in mix ensures MixRecord(mix, found, id) == mix[id] {
      MixAgain(records, found, id);
    }
    MixFixed(mix, found);
  }

  lemma MixAgain(records: Index, found: map<string, FolderRef>, id: string)
    requires forall id :: id in records ==> HasPadSet(records[id])
    requires id in MixIndex(records, found)
    ensures forall id :: id in MixIndex(records, found) ==> HasPadSet(MixIndex(records, found)[id])
    ensures MixRecord(MixIndex(records, found), found, id) == MixIndex(records, found)[id]
  {
    MixedPadSets(records, found);
    var mix := MixIndex(records, found);
    var rec := MixRecord(records, found, id);
    assert mix[id] == rec && PriorRecord(mix, id) == rec;
    FoundFieldKeys(found, id);
    MergeIdempotent(PriorRecord(records, id), FoundFields(found, id));
  }

  /** A merged map that merging leaves alone pointwise is left alone. */
  lemma MixFixed(mix: Index, found: map<string, FolderRef>)
    requires forall id :: id in mix ==> HasPadSet(mix[id])
    requires found.Keys <= mix.Keys
    requires forall id :: id in mix ==> MixRecord(mix, found, id) == mix[id]
    ensures MixIndex(mix, found) == mix
  {
    var again := MixIndex(mix, found);
    assert again.Keys == mix.Keys;
  }

  /** Every merged record has a set of pads. */
  lemma MixedPadSets(records: Index, found: map<string, FolderRef>)
    requires forall id :: id in records ==> HasPadSet(records[id])
    ensures forall id :: id in MixIndex(records, found) ==> HasPadSet(MixIndex(records, found)[id])
  {
    var mix := MixIndex(records, found);
    forall id | id in mix ensures HasPadSet(mix[id]) {
      assert id in records || id in found;
      assert mix[id] == MixRecord(records, found, id);
    }
  }

  /** The folder version `gen_foldrs` passes on (hackfoldrs.py:176): 2.0 when the host of
      the record's URL contains "beta", 1.0 otherwise or when there is no URL; a URL that
      is not a string cannot be parsed. */
  function VersionOf(rec: Fields): (r: Result<Version>)
    ensures r == Ok(V2) <==> UrlKey in rec && rec[UrlKey].Str? && exists i :: OccursAt(NetlocOf(rec[UrlKey].s), "beta", i)
    ensures r.Err? <==> UrlKey in rec && !rec[UrlKey].Str?
    ensures r.Err? ==> r.error == AttributeError
  {
    var url := if UrlKey in rec then rec[UrlKey] else Str("");
    if !url.Str? then Err(AttributeError)
    else if Contains(NetlocOf(url.s), "beta") then Ok(V2)
    else Ok(V1)
  }

  /** What the fetch loop learns about one folder: its resolution, or the exception raised
      on the way. */
  function Outcome(net: Responses, id: string, rec: Fields): Result<Resolution> {
    var version :- VersionOf(rec);
    ResolveCsv(net, id, version)
  }

  function SourceName(s: Source): string {
    match s
    case Google => "google"
    case Ethercalc => "ethercalc"
  }

  /** A resolved folder's record gains its source and its time; any other record is kept. */
  function Refreshed(rec: Fields, res: Resolution): (r: Fields)
    ensures res.Unresolved? ==> r == rec
    ensures res.Resolved? ==>
      && r.Keys == rec.Keys + {SourceKey, UpdatedKey}
      && r[SourceKey] == Str(SourceName(res.source))
      && r[UpdatedKey] == Str(IsoZ(res.updatedAt))
    ensures forall k :: k in rec && k != SourceKey && k != UpdatedKey ==> r[k] == rec[k]
  {
    if res.Resolved? then rec[SourceKey := Str(SourceName(res.source))][UpdatedKey := Str(IsoZ(res.updatedAt))]
    else rec
  }

  /** The outcome of every folder of the merged map. */
  ghost function Outcomes(mix: Index, net: Responses): map<string, Result<Resolution>> {
    map id | id in mix :: Outcome(net, id, mix[id])
  }

  /** The folders of `done` resolved without an exception. */
  ghost predicate AllOk(outs: map<string, Result<Resolution>>, done: set<string>) {
    forall id :: id in outs && id in done ==> outs[id].Ok?
  }

  /** The records once the folders of `done` have been fetched. */
  ghost function Stamped(mix: Index, outs: map<string, Result<Resolution>>, done: set<string>): Index
    requires outs.Keys == mix.Keys && AllOk(outs, done)
  {
    map id | id in mix :: if id in done then Refreshed(mix[id], outs[id].value) else mix[id]
  }

  /** The tables written once the folders of `done` have been fetched. */
  ghost function TablesOf(outs: map<string, Result<Resolution>>, done: set<string>): map<string, Table>
    requires AllOk(outs, done)
  {
    map id | id in outs && id in done && outs[id].value.Resolved? :: outs[id].value.csv
  }

  /** Every folder of the merged map resolves without an exception. */
  ghost predicate FetchesOk(mix: Index, net: Responses) {
    AllOk(Outcomes(mix, net), mix.Keys)
  }

  /** The merged map after the fetch loop. */
  ghost function Fetched(mix: Index, net: Responses): Index
    requires FetchesOk(mix, net)
  {
    Stamped(mix, Outcomes(mix, net), mix.Keys)
  }

  /** The per-folder tables the fetch loop writes. */
  ghost function Tables(mix: Index, net: Responses): map<string, Table>
    requires FetchesOk(mix, net)
  {
    TablesOf(Outcomes(mix, net), mix.Keys)
  }

  /** The fetch loop succeeds exactly when no folder raises; it then stamps each resolved
      folder with its source and time, leaves the others unchanged, and writes one table
      per resolved folder. */
  lemma FetchedSpec(mix: Index, net: Responses)
    ensures FetchesOk(mix, net) <==> forall id :: id in mix ==> Outcome(net, id, mix[id]).Ok?
    ensures FetchesOk(mix, net) ==>
      && Fetched(mix, net).Keys == mix.Keys
      && (forall id :: id in mix ==> Fetched(mix, net)[id] == Refreshed(mix[id], Outcome(net, id, mix[id]).value))
      && (forall id :: id in Tables(mix, net) <==> id in mix && Outcome(net, id, mix[id]).value.Resolved?)
      && (forall id :: id in Tables(mix, net) ==> Tables(mix, net)[id] == Outcome(net, id, mix[id]).value.csv)
  {
    forall id | id in mix ensures Outcomes(mix, net)[id] == Outcome(net, id, mix[id]) {
    }
    if FetchesOk(mix, net) {
      assert Fetched(mix, net).Keys == mix.Keys;
      forall id | id in mix
        ensures Fetched(mix, net)[id] == Refreshed(mix[id], Outcome(net, id, mix[id]).value)
      {
        FetchedAt(mix, net, id);
      }
      forall id ensures id in Tables(mix, net) <==> id in mix && Outcome(net, id, mix[id]).value.Resolved? {
        if id in mix {
          FetchedAt(mix, net, id);
        }
      }
      forall id | id in Tables(mix, net) ensures Tables(mix, net)[id] == Outcome(net, id, mix[id]).value.csv {
        FetchedAt(mix, net, id);
      }
    }
  }

  /** The fetch loop, for one folder. */
  lemma FetchedAt(mix: Index, net: Responses, id: string)
    requires FetchesOk(mix, net) && id in mix
    ensures Outcome(net, id, mix[id]).Ok?
    ensures id in Fetched(mix, net) && Fetched(mix, net)[id] == Refreshed(mix[id], Outcome(net, id, mix[id]).value)
    ensures id in Tables(mix, net) <==> Outcome(net, id, mix[id]).value.Resolved?
    ensures id in Tables(mix, net) ==> Tables(mix, net)[id] == Outcome(net, id, mix[id]).value.csv
  {
    assert Outcomes(mix, net)[id] == Outcome(net, id, mix[id]);
  }

  lemma StampedNone(mix: Index, outs: map<string, Result<Resolution>>)
    requires outs.Keys == mix.Keys
    ensures AllOk(outs, {}) && Stamped(mix, outs, {}) == mix && TablesOf(outs, {}) == map[]
  {
  }

  lemma FetchStep(mix: Index, outs: map<string, Result<Resolution>>, done: set<string>, id: string)
    requires outs.Keys == mix.Keys && AllOk(outs, done) && id in mix && id !in done && outs[id].Ok?
    ensures AllOk(outs, done + {id})
    ensures var s := Stamped(mix, outs, done); var s' := Stamped(mix, outs, done + {id});
      if outs[id].value.Resolved? then s[id := Refreshed(mix[id], outs[id].value)] == s' else s == s'
  {
    var s := Stamped(mix, outs, done);
    var s' := Stamped(mix, outs, done + {id});
    var x := Refreshed(mix[id], outs[id].value);
    assert s.Keys == s'.Keys;
    forall k | k in s' && k != id ensures s[k] == s'[k] {
    }
    if outs[id].value.Unresolved? {
      assert x == mix[id];
      assert s[id] == s'[id];
    } else {
      assert s[id := x][id] == s'[id];
    }
  }

  lemma TablesStep(outs: map<string, Result<Resolution>>, done: set<string>, id: string)
    requires AllOk(outs, done) && id in outs && id !in done && outs[id].Ok?
    ensures AllOk(outs, done + {id})
    ensures var t := TablesOf(outs, done); var t' := TablesOf(outs, done + {id});
      if outs[id].value.Resolved? then t[id := outs[id].value.csv] == t' else t == t'
  {
  }

  /** The fetch loop (hackfoldrs.py:175-182): resolve each folder and stamp the resolved
      ones with their source and time, in place; the tables to write are returned beside
      the records. Iteration order is not modelled: a failure reports the exception of some
      folder. */
  method FetchAll(mix: Index, net: Responses) returns (r: Result<(Index, map<string, Table>)>)
    ensures r.Ok? <==> FetchesOk(mix, net)
    ensures r.Ok? ==> r.value == (Fetched(mix, net), Tables(mix, net))
    ensures r.Err? ==> exists id :: id in mix && Outcomes(mix, net)[id] == Err(r.error)
  {
    ghost var outs := Outcomes(mix, net);
    var records := mix;
    var tables: map<string, Table> := map[];
    var todo := mix.Keys;
    ghost var done: set<string> := {};
    StampedNone(mix, outs);
    assert mix.Keys - todo == done;
    while todo != {}
      invariant outs == Outcomes(mix, net)
      invariant StampedSoFar(mix, outs, todo, done, records, tables)
      decreases |todo|
    {
      var id :| id in todo;
      var res := Outcome(net, id, records[id]);
      assert res == outs[id];
      if res.Err? {
        return Err(res.error);
      }
      records, tables := StampFolder(mix, outs, todo, done, records, tables, id, res.value);
      done := done + {id};
      todo := todo - {id};
    }
    FetchedAll(mix, net, outs, done, records, tables);
    r := Ok((records, tables));
  }

  /** The state of the fetch loop: the folders of `done` are fetched, those of `todo` not yet. */
  ghost predicate StampedSoFar(mix: Index, outs: map<string, Result<Resolution>>, todo: set<string>, done: set<string>,
                               records: Index, tables: map<string, Table>) {
    && outs.Keys == mix.Keys
    && todo <= mix.Keys && done == mix.Keys - todo
    && AllOk(outs, done)
    && records == Stamped(mix, outs, done)
    && tables == TablesOf(outs, done)
  }

  /** One iteration of the fetch loop, once folder `id` has resolved to `res`: stamp it
      when it resolved and keep its table. */
  method StampFolder(mix: Index, ghost outs: map<string, Result<Resolution>>, ghost todo: set<string>, ghost done: set<string>,
                     records: Index, tables: map<string, Table>, id: string, res: Resolution)
    returns (records': Index, tables': map<string, Table>)
    requires StampedSoFar(mix, outs, todo, done, records, tables) && id in todo && outs[id] == Ok(res)
    ensures StampedSoFar(mix, outs, todo - {id}, done + {id}, records', tables')
  {
    FetchStep(mix, outs, done, id);
    TablesStep(outs, done, id);
    assert mix.Keys - (todo - {id}) == done + {id};
    if res.Resolved? {
      return records[id := Refreshed(records[id], res)], tables[id := res.csv];
    }
    return records, tables;
  }

  lemma FetchedAll(mix: Index, net: Responses, outs: map<string, Result<Resolution>>, done: set<string>, records: Index, tables: map<string, Table>)
    requires outs == Outcomes(mix, net) && StampedSoFar(mix, outs, {}, done, records, tables)
    ensures FetchesOk(mix, net) && records == Fetched(mix, net) && tables == Tables(mix, net)
  {
    assert done == mix.Keys;
  }

  /** One record of the written index: its pads as a sorted list. */
  function CleanRecord(rec: Fields): (r: Fields)
    requires HasPadSet(rec)
    ensures r.Keys == rec.Keys
    ensures forall k :: k in rec && k != PadsKey ==> r[k] == rec[k]
    ensures r[PadsKey].Items? && StrictlyIncreasing(r[PadsKey].xs)
    ensures forall x :: x in r[PadsKey].xs <==> x in rec[PadsKey].elems
  {
    rec[PadsKey := Items(SortedOf(rec[PadsKey].elems))]
  }

  /** The written index (hackfoldrs.py:186-187): the records that have a source, with their
      pads as a sorted list. */
  function CleanIndex(mix: Index): (clean: Index)
    requires forall id :: id in mix ==> HasPadSet(mix[id])
    ensures clean.Keys == set id | id in mix && SourceKey in mix[id]
    ensures forall id :: id in clean ==> clean[id] == CleanRecord(mix[id])
  {
    map id | id in mix && SourceKey in mix[id] :: CleanRecord(mix[id])
  }

  /** Loading a cleaned record gives back the record: the sorted list of pads becomes the
      same set again. */
  lemma ReloadClean(rec: Fields)
    requires HasPadSet(rec)
    ensures LoadRecord(Record(CleanRecord(rec))) == Ok(rec)
  {
    SortedOfElements(rec[PadsKey].elems);
    assert CleanRecord(rec)[PadsKey := rec[PadsKey]] == rec;
  }
}
