/**
 * Backend resolution (`_get_csv_google`, `_get_csv_ethercalc`, `_get_csv`): where a
 * folder's table lives and when it last changed. The HTTP responses are inputs: a backend
 * map lacks an id exactly when the request for that id does not answer with status 200.
 */
module Backends {
  import opened Base
  import opened Strings
  import opened Times

  /** A table as Ethercalc's `csv.json` gives it: rows of cells. */
  type Table = seq<seq<string>>

  /** One field of a Google feed entry: its key and, when the field is an object with a
      `$t` member, that text. */
  datatype Field = Field(key: string, text: Option<string>)

  /** One row of a Google list feed: its fields in document order. */
  type Entry = seq<Field>

  /** A Google list feed: its `entry` list (absent when the feed has no such key) and its
      `updated` time (absent when the feed has no such key). */
  datatype Feed = Feed(entry: Option<seq<Entry>>, updated: Option<DateTime>)

  /** What the backends answer: Google feeds and Ethercalc tables by id, and the change
      log times of Ethercalc sheets by id. */
  datatype Responses = Responses(google: map<string, Feed>, ethercalc: map<string, Table>, logs: map<string, seq<DateTime>>)

  /** A `(csv, updated_at)` pair; `None` stands for Python's `None`. */
  datatype Fetch = Fetch(csv: Option<Table>, updatedAt: Option<DateTime>)

  datatype Source = Google | Ethercalc

  /** Folder format version: 1.0 or 2.0 (hosts whose name contains `beta`). */
  datatype Version = V1 | V2

  /** What `_get_csv` returns: a source, its table and its time, or `(None, None, None)`. */
  datatype Resolution = Resolved(source: Source, csv: Table, updatedAt: DateTime) | Unresolved

  const GsxPrefix := "gsx$"

  /** An Ethercalc A1 cell this long, not starting with `#`, names a Google sheet. */
  const RedirectLength := 40

  /** The `gsx$`-prefixed fields of an entry, in order. */
  function GsxFields(e: Entry): (fs: seq<Field>)
    ensures forall k :: 0 <= k < |fs| ==> StartsWith(fs[k].key, GsxPrefix) && fs[k] in e
    ensures forall f :: f in e && StartsWith(f.key, GsxPrefix) ==> f in fs
  {
    if e == [] then []
    else
      var rest := GsxFields(e[1..]);
      assert forall f :: f in e ==> f == e[0] || f in e[1..];
      (if StartsWith(e[0].key, GsxPrefix) then [e[0]] else []) + rest
  }

  /** The `gsx$` fields of a run of fields followed by another are those of the first run
      followed by those of the second: together with `GsxSingle` this fixes their order. */
  lemma {:induction false} GsxFieldsAppend(a: Entry, b: Entry)
    ensures GsxFields(a + b) == GsxFields(a) + GsxFields(b)
    decreases |a|
  {
    if a != [] {
      assert (a + b)[1..] == a[1..] + b;
      GsxFieldsAppend(a[1..], b);
    } else {
      assert a + b == b;
    }
  }

  /** A single field is kept exactly when its key carries the prefix. */
  lemma GsxSingle(f: Field)
    ensures GsxFields([f]) == if StartsWith(f.key, GsxPrefix) then [f] else []
  {
    assert [f][1..] == [];
  }

  /** The `gsx$` fields of an entry as (stripped name, `$t` text) pairs, in order; a `gsx$`
      field without a `$t` text raises `KeyError`. */
  function RowOf(e: Entry): (r: Result<seq<(string, string)>>)
    ensures r.Ok? <==> forall f :: f in GsxFields(e) ==> f.text.Some?
    ensures r.Ok? ==> |r.value| == |GsxFields(e)|
    ensures r.Err? ==> r.error == KeyError
  {
    if e == [] then Ok([])
    else
      var rest :- RowOf(e[1..]);
      if !StartsWith(e[0].key, GsxPrefix) then
        assert GsxFields(e) == GsxFields(e[1..]);
        Ok(rest)
      else if e[0].text.None? then
        assert e[0] in GsxFields(e);
        Err(KeyError)
      else
        assert GsxFields(e) == [e[0]] + GsxFields(e[1..]);
        Ok([(e[0].key[|GsxPrefix|..], e[0].text.value)] + rest)
  }

  /** Each pair of a row is a `gsx$` field of the entry with its prefix stripped, in order:
      putting the prefix back gives the field's key. */
  lemma RowOfFields(e: Entry)
    requires RowOf(e).Ok?
    ensures forall k :: 0 <= k < |RowOf(e).value| ==>
      GsxPrefix + RowOf(e).value[k].0 == GsxFields(e)[k].key && Some(RowOf(e).value[k].1) == GsxFields(e)[k].text
  {
    forall k | 0 <= k < |RowOf(e).value|
      ensures GsxPrefix + RowOf(e).value[k].0 == GsxFields(e)[k].key && Some(RowOf(e).value[k].1) == GsxFields(e)[k].text
    {
      RowOfFieldAt(e, k);
    }
  }

  /** The `k`-th pair of a row comes from the `k`-th `gsx$` field. */
  lemma {:induction false} RowOfFieldAt(e: Entry, k: nat)
    requires RowOf(e).Ok? && k < |RowOf(e).value|
    ensures GsxPrefix + RowOf(e).value[k].0 == GsxFields(e)[k].key && Some(RowOf(e).value[k].1) == GsxFields(e)[k].text
    decreases |e|
  {
    var row, fs := RowOf(e).value, GsxFields(e);
    if StartsWith(e[0].key, GsxPrefix) {
      RowOfHead(e);
      if k > 0 {
        RowOfFieldAt(e[1..], k - 1);
        assert row[k] == RowOf(e[1..]).value[k - 1] && fs[k] == GsxFields(e[1..])[k - 1];
      } else {
        assert row[0] == (e[0].key[|GsxPrefix|..], e[0].text.value) && fs[0] == e[0];
      }
    } else {
      RowOfSkip(e);
      RowOfFieldAt(e[1..], k);
    }
  }

  /** A leading field without the prefix contributes nothing to the row. */
  lemma RowOfSkip(e: Entry)
    requires e != [] && !StartsWith(e[0].key, GsxPrefix) && RowOf(e).Ok?
    ensures RowOf(e[1..]).Ok? && RowOf(e).value == RowOf(e[1..]).value
    ensures GsxFields(e) == GsxFields(e[1..])
  {
  }

  /** A leading prefixed field contributes the first pair of the row. */
  lemma RowOfHead(e: Entry)
    requires e != [] && StartsWith(e[0].key, GsxPrefix) && RowOf(e).Ok?
    ensures RowOf(e[1..]).Ok? && e[0].text.Some?
    ensures RowOf(e).value == [(e[0].key[|GsxPrefix|..], e[0].text.value)] + RowOf(e[1..]).value
    ensures GsxFields(e) == [e[0]] + GsxFields(e[1..])
    ensures GsxPrefix + e[0].key[|GsxPrefix|..] == e[0].key
  {
    var key := e[0].key;
    assert key == key[..|GsxPrefix|] + key[|GsxPrefix|..];
  }

  /** The rows of all entries; the first entry whose row fails decides the error. */
  function RowsOf(entries: seq<Entry>): (r: Result<seq<seq<(string, string)>>>)
    ensures r.Ok? <==> forall i :: 0 <= i < |entries| ==> RowOf(entries[i]).Ok?
    ensures r.Ok? ==> |r.value| == |entries| && forall i :: 0 <= i < |entries| ==> r.value[i] == RowOf(entries[i]).value
    ensures r.Err? ==> r.error == KeyError
  {
    if entries == [] then Ok([])
    else
      var first :- RowOf(entries[0]);
      var rest :- RowsOf(entries[1..]);
      assert forall i :: 1 <= i < |entries| ==> entries[i] == entries[1..][i - 1];
      Ok([first] + rest)
  }

  function Header(row: seq<(string, string)>): seq<string> {
    seq(|row|, k requires 0 <= k < |row| => "#" + row[k].0)
  }

  function Values(row: seq<(string, string)>): seq<string> {
    seq(|row|, k requires 0 <= k < |row| => row[k].1)
  }

  /** `_get_csv_google`: the feed reshaped as an Ethercalc table, a header row of `#`-prefixed
      field names from the first entry followed by one row of texts per entry. */
  function GoogleCsv(net: Responses, id: string): (f: Result<Fetch>)
    ensures id !in net.google ==> f == Ok(Fetch(None, None))
    ensures f.Ok? ==> (f.value.csv.Some? <==> f.value.updatedAt.Some?)
    ensures f.Ok? && f.value.csv.None? <==> id !in net.google || net.google[id].entry == Some([])
    ensures f.Err? <==>
      && id in net.google
      && var feed := net.google[id];
      || feed.entry.None?
      || RowsOf(feed.entry.value).Err?
      || (feed.entry.value != [] && feed.updated.None?)
    ensures f.Err? ==> f.error == KeyError
  {
    if id !in net.google then Ok(Fetch(None, None))
    else
      var feed := net.google[id];
      if feed.entry.None? then Err(KeyError)
      else
        var rows :- RowsOf(feed.entry.value);
        if rows == [] then Ok(Fetch(None, None))
        else if feed.updated.None? then Err(KeyError)
        else
          var table := [Header(rows[0])] + seq(|rows|, i requires 0 <= i < |rows| => Values(rows[i]));
          Ok(Fetch(Some(table), feed.updated))
  }

  /** The table Google yields: one header row naming the first entry's `gsx$` fields with
      `#` in place of the prefix, then one row per entry holding its `gsx$` fields' texts in
      field order; its time is the feed's `updated` time. */
  lemma GoogleTable(net: Responses, id: string)
    requires GoogleCsv(net, id).Ok? && GoogleCsv(net, id).value.csv.Some?
    ensures id in net.google && net.google[id].entry.Some?
    ensures GoogleCsv(net, id).value.updatedAt == net.google[id].updated
    ensures
      var entries := net.google[id].entry.value;
      var t := GoogleCsv(net, id).value.csv.value;
      && |entries| > 0 && |t| == |entries| + 1
      && |t[0]| == |GsxFields(entries[0])|
      && (forall k :: 0 <= k < |t[0]| ==>
            |t[0][k]| > 0 && t[0][k][0] == '#' && GsxPrefix + t[0][k][1..] == GsxFields(entries[0])[k].key)
      && forall i :: 0 <= i < |entries| ==>
           && |t[i + 1]| == |GsxFields(entries[i])|
           && forall k :: 0 <= k < |t[i + 1]| ==> Some(t[i + 1][k]) == GsxFields(entries[i])[k].text
  {
    var entries := net.google[id].entry.value;
    var rows: seq<seq<(string, string)>> := RowsOf(entries).value;
    forall i | 0 <= i < |entries| ensures RowOf(entries[i]).Ok? {
    }
    RowOfFields(entries[0]);
    forall i | 0 <= i < |entries|
      ensures forall k :: 0 <= k < |rows[i]| ==> Some(rows[i][k].1) == GsxFields(entries[i])[k].text
    {
      RowOfFields(entries[i]);
    }
    var t := GoogleCsv(net, id).value.csv.value;
    forall k | 0 <= k < |t[0]| ensures t[0][k][1..] == rows[0][k].0 {
      assert t[0][k] == "#" + rows[0][k].0;
    }
  }

  /** The redirect test on the A1 cell of an Ethercalc sheet. */
  predicate Redirects(a1: string, version: Version) {
    version == V2 && !StartsWith(a1, "#") && |a1| >= RedirectLength
  }

  /** `_get_csv_ethercalc`: the sheet's table, or the Google sheet its A1 cell names; the
      time is the latest entry of the sheet's change log. */
  function EthercalcCsv(net: Responses, id: string, version: Version): (f: Result<Fetch>)
    ensures id !in net.ethercalc ==> f == Ok(Fetch(None, None))
    ensures id in net.ethercalc ==>
      var csv := net.ethercalc[id];
      if csv == [] || csv[0] == [] then f == Err(IndexError)
      else if Redirects(csv[0][0], version) then f == GoogleCsv(net, csv[0][0])
      else
        && (f.Ok? ==> f.value.csv == Some(csv) && (f.value.updatedAt.Some? <==> id in net.logs))
        && (f.Ok? && f.value.updatedAt.Some? ==>
              f.value.updatedAt.value in net.logs[id] && forall u :: u in net.logs[id] ==> !Before(f.value.updatedAt.value, u))
        && (f.Err? <==> id in net.logs && net.logs[id] == [])
        && (f.Err? ==> f.error == ValueError)
    ensures version == V1 && f.Ok? && f.value.csv.Some? ==> f.value.csv == Some(net.ethercalc[id])
  {
    if id !in net.ethercalc then Ok(Fetch(None, None))
    else
      var csv := net.ethercalc[id];
      if csv == [] || csv[0] == [] then Err(IndexError)
      else if Redirects(csv[0][0], version) then GoogleCsv(net, csv[0][0])
      else if id !in net.logs then Ok(Fetch(Some(csv), None))
      else if net.logs[id] == [] then Err(ValueError)
      else Ok(Fetch(Some(csv), Some(Latest(net.logs[id]))))
  }

  /** Python truthiness of `csv and updated_at`: a non-empty table and a time. */
  predicate Usable(f: Fetch) {
    f.csv.Some? && f.csv.value != [] && f.updatedAt.Some?
  }

  /** `_get_csv`: Google first, then Ethercalc, then nothing. */
  function ResolveCsv(net: Responses, id: string, version: Version): (res: Result<Resolution>)
    ensures res.Ok? && res.value.Resolved? ==> res.value.csv != []
    ensures res.Ok? && res.value.Resolved? ==>
      Ok(Fetch(Some(res.value.csv), Some(res.value.updatedAt))) ==
        (if res.value.source == Google then GoogleCsv(net, id) else EthercalcCsv(net, id, version))
    ensures res.Ok? && res.value.Resolved? && res.value.source == Google <==> GoogleCsv(net, id).Ok? && Usable(GoogleCsv(net, id).value)
    ensures res.Ok? && res.value.Resolved? && res.value.source == Ethercalc <==>
      && GoogleCsv(net, id).Ok? && !Usable(GoogleCsv(net, id).value)
      && EthercalcCsv(net, id, version).Ok? && Usable(EthercalcCsv(net, id, version).value)
    ensures res == Ok(Unresolved) <==>
      && GoogleCsv(net, id).Ok? && !Usable(GoogleCsv(net, id).value)
      && EthercalcCsv(net, id, version).Ok? && !Usable(EthercalcCsv(net, id, version).value)
    ensures res.Err? <==>
      || GoogleCsv(net, id).Err?
      || (!Usable(GoogleCsv(net, id).value) && EthercalcCsv(net, id, version).Err?)
  {
    var g :- GoogleCsv(net, id);
    if Usable(g) then Ok(Resolved(Google, g.csv.value, g.updatedAt.value))
    else
      var e :- EthercalcCsv(net, id, version);
      if Usable(e) then Ok(Resolved(Ethercalc, e.csv.value, e.updatedAt.value))
      else Ok(Unresolved)
  }
}
