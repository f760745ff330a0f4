/**
 * Link extraction (`Hackfoldrs._find_new_foldrs`): scan the anchors of the pads that
 * changed since the last run and collect, per folder id, the URL of the first link to
 * the folder and the set of pads linking to it.
 */
module Extract {
  import opened Strings
  import opened Urls

  /** A pad of the corpus: its id and, in document order, the parsed `href` of every
      anchor that carries one. */
  datatype Pad = Pad(padId: string, hrefs: seq<Url>)

  /** A folder found in this run: `url` comes from the first link to it, `hackpads`
      holds every scanned pad that links to it. */
  datatype FolderRef = FolderRef(url: string, hackpads: set<string>)

  /** The links in scan order, each with the id of the pad it was found in. */
  type Scan = seq<(string, Url)>

  const FolderHost := "hackfoldr.org"

  /** A link is a folder link when its host mentions the folder host and its path has a
      non-empty second '/'-segment. */
  predicate Qualifies(link: Url) {
    && Contains(link.netloc, FolderHost)
    && var segments := Split(link.path, '/'); |segments| >= 2 && segments[1] != []
  }

  /** The folder id of a folder link: the second segment of its path. */
  function FolderId(link: Url): (id: string)
    requires Qualifies(link)
    ensures id != [] && '/' !in id
  {
    Split(link.path, '/')[1]
  }

  /** The URL recorded for a folder: the link with its path cut to the first two
      segments, joined without a separator, as written by `geturl()`. */
  function FolderUrl(link: Url): string
    requires Qualifies(link)
  {
    var segments := Split(link.path, '/');
    Unparse(link.(path := segments[0] + segments[1]))
  }

  /** The folder URL keeps the host of the link it was made from. */
  lemma FolderUrlHost(link: Url)
    requires Qualifies(link) && WellFormed(link)
    ensures NetlocOf(FolderUrl(link)) == link.netloc
  {
    var i :| OccursAt(link.netloc, FolderHost, i);
    var segments := Split(link.path, '/');
    NetlocRoundTrip(link.(path := segments[0] + segments[1]));
  }

  predicate LinksTo(link: Url, id: string) {
    Qualifies(link) && FolderId(link) == id
  }

  /** `id` is the text between the first and the second '/' of `path`. */
  ghost predicate SecondSegment(path: string, id: string) {
    exists head :: '/' !in head && (path == head + "/" + id || StartsWith(path, head + "/" + id + "/"))
  }

  lemma JoinCons(a: string, rest: seq<string>, sep: char)
    requires |rest| >= 1
    ensures Join([a] + rest, sep) == a + [sep] + Join(rest, sep)
  {
    assert ([a] + rest)[1..] == rest;
  }

  /** A link leads to folder `id` exactly when its host contains "hackfoldr.org" and `id`
      is the non-empty second segment of its path. */
  lemma LinksToIff(link: Url, id: string)
    ensures LinksTo(link, id) <==>
      Contains(link.netloc, FolderHost) && id != [] && '/' !in id && SecondSegment(link.path, id)
  {
    if LinksTo(link, id) {
      SecondSegmentOfSplit(link.path);
    }
    if Contains(link.netloc, FolderHost) && id != [] && '/' !in id && SecondSegment(link.path, id) {
      SplitOfSecondSegment(link.path, id);
    }
  }

  lemma {:induction false} SecondSegmentOfSplit(path: string)
    requires var p := Split(path, '/'); |p| >= 2
    ensures var p := Split(path, '/'); '/' !in p[1] && SecondSegment(path, p[1])
  {
    var p := Split(path, '/');
    var id := p[1];
    JoinCons(p[0], p[1..], '/');
    assert p == [p[0]] + p[1..];
    assert path == p[0] + "/" + Join(p[1..], '/');
    if |p| == 2 {
      assert path == p[0] + "/" + id;
    } else {
      JoinCons(p[1], p[2..], '/');
      assert p[1..] == [p[1]] + p[2..];
      assert path == (p[0] + "/" + id + "/") + Join(p[2..], '/');
      assert StartsWith(path, p[0] + "/" + id + "/");
    }
  }

  lemma SplitOfSecondSegment(path: string, id: string)
    requires '/' !in id && SecondSegment(path, id)
    ensures var p := Split(path, '/'); |p| >= 2 && p[1] == id
  {
    var head :| '/' !in head && (path == head + "/" + id || StartsWith(path, head + "/" + id + "/"));
    if path == head + "/" + id {
      SplitTwo(head, id);
      assert Split(path, '/') == [head, id];
    } else {
      var prefix := head + "/" + id + "/";
      assert StartsWith(path, prefix);
      var more := path[|prefix|..];
      assert path == head + "/" + id + "/" + more by {
        assert path == prefix + more;
      }
      SplitMore(head, id, more);
      assert Split(path, '/')[..2] == [head, id];
    }
  }

  lemma SplitTwo(head: string, id: string)
    requires '/' !in head && '/' !in id
    ensures Split(head + "/" + id, '/') == [head, id]
  {
    var parts := [head, id];
    JoinCons(head, [id], '/');
    assert [head] + [id] == parts;
    SplitUnique(parts, head + "/" + id, '/');
  }

  lemma SplitMore(head: string, id: string, more: string)
    requires '/' !in head && '/' !in id
    ensures Split(head + "/" + id + "/" + more, '/') == [head, id] + Split(more, '/')
  {
    var path := head + "/" + id + "/" + more;
    var tail := Split(more, '/');
    var parts := [head, id] + tail;
    JoinCons(id, tail, '/');
    assert parts[1..] == [id] + tail;
    JoinCons(head, parts[1..], '/');
    assert [head] + parts[1..] == parts;
    assert Join(parts, '/') == path;
    forall k | 0 <= k < |parts| ensures '/' !in parts[k] {
      if k >= 2 {
        assert parts[k] == tail[k - 2];
      }
    }
    SplitUnique(parts, path, '/');
  }

  /** One step of the scan: a folder link from pad `padId` creates the folder's entry
      (with the link's URL) or adds the pad to it; any other link changes nothing. */
  function Step(acc: map<string, FolderRef>, padId: string, link: Url): map<string, FolderRef> {
    if !Qualifies(link) then
      acc
    else
      var id := FolderId(link);
      var entered := if id in acc then acc else acc[id := FolderRef(FolderUrl(link), {})];
      entered[id := entered[id].(hackpads := entered[id].hackpads + {padId})]
  }

  /** The folders found by scanning the links of `scan` in order. */
  function Accumulate(scan: Scan): map<string, FolderRef>
    decreases |scan|
  {
    if scan == [] then map[]
    else
      var n := |scan| - 1;
      Step(Accumulate(scan[..n]), scan[n].0, scan[n].1)
  }

  /** The pads of the manifest whose id is in the diff set, in manifest order. */
  function Scanned(pads: seq<Pad>, diffPads: set<string>): (r: seq<Pad>)
    ensures forall p :: p in r <==> p in pads && p.padId in diffPads
  {
    if pads == [] then []
    else
      var rest := Scanned(pads[1..], diffPads);
      assert forall p :: p in pads <==> p == pads[0] || p in pads[1..];
      if pads[0].padId in diffPads then [pads[0]] + rest else rest
  }

  /** Filtering the manifest keeps its order: the pads kept from one run of the manifest
      followed by another are those kept from the first run followed by those kept from
      the second. With `ScannedSingle` this fixes the result, repeats included. */
  lemma {:induction false} ScannedAppend(a: seq<Pad>, b: seq<Pad>, diffPads: set<string>)
    ensures Scanned(a + b, diffPads) == Scanned(a, diffPads) + Scanned(b, diffPads)
    decreases |a|
  {
    if a != [] {
      assert (a + b)[1..] == a[1..] + b;
      ScannedAppend(a[1..], b, diffPads);
    } else {
      assert a + b == b;
    }
  }

  /** A single pad is kept exactly when its id is among the changed pads. */
  lemma ScannedSingle(p: Pad, diffPads: set<string>)
    ensures Scanned([p], diffPads) == if p.padId in diffPads then [p] else []
  {
    assert [p][1..] == [];
  }

  /** The links of one pad, in document order. */
  function PadScan(p: Pad): Scan {
    seq(|p.hrefs|, k requires 0 <= k < |p.hrefs| => (p.padId, p.hrefs[k]))
  }

  /** The links of all `pads`, pad after pad. */
  function ScanOf(pads: seq<Pad>): Scan
    decreases |pads|
  {
    if pads == [] then [] else ScanOf(pads[..|pads| - 1]) + PadScan(pads[|pads| - 1])
  }

  lemma AccumulateSnoc(before: Scan, e: (string, Url))
    ensures Accumulate(before + [e]) == Step(Accumulate(before), e.0, e.1)
  {
    assert (before + [e])[..|before|] == before;
  }

  lemma ScanOfSnoc(pads: seq<Pad>, i: nat)
    requires i < |pads|
    ensures ScanOf(pads[..i + 1]) == ScanOf(pads[..i]) + PadScan(pads[i])
  {
    assert pads[..i + 1][..i] == pads[..i];
  }

  /** `_find_new_foldrs`, with the manifest and the parsed anchors of each pad as inputs. */
  method FindNewFolders(pads: seq<Pad>, diffPads: set<string>) returns (folders: map<string, FolderRef>)
    ensures folders == Accumulate(ScanOf(Scanned(pads, diffPads)))
  {
    var scanned := Scanned(pads, diffPads);
    folders := map[];
    var i := 0;
    while i < |scanned|
      invariant 0 <= i <= |scanned|
      invariant folders == Accumulate(ScanOf(scanned[..i]))
    {
      folders := ScanPad(folders, scanned[i], ScanOf(scanned[..i]));
      ScanOfSnoc(scanned, i);
      i := i + 1;
    }
    assert scanned[..|scanned|] == scanned;
  }

  /** The inner loop of `_find_new_foldrs`: every anchor of one pad, in document order. */
  method ScanPad(folders0: map<string, FolderRef>, pad: Pad, ghost done: Scan) returns (folders: map<string, FolderRef>)
    requires folders0 == Accumulate(done)
    ensures folders == Accumulate(done + PadScan(pad))
  {
    folders := folders0;
    var j := 0;
    assert done + PadScan(pad)[..0] == done;
    while j < |pad.hrefs|
      invariant 0 <= j <= |pad.hrefs|
      invariant folders == Accumulate(done + PadScan(pad)[..j])
    {
      PadScanSnoc(done, pad, j);
      AccumulateSnoc(done + PadScan(pad)[..j], (pad.padId, pad.hrefs[j]));
      folders := AddLink(folders, pad.padId, pad.hrefs[j]);
      j := j + 1;
    }
    assert PadScan(pad)[..|pad.hrefs|] == PadScan(pad);
  }

  /** The body of the link loop: enter the folder a qualifying link leads to, then add
      the pad to it. */
  method AddLink(folders0: map<string, FolderRef>, padId: string, link: Url) returns (folders: map<string, FolderRef>)
    ensures folders == Step(folders0, padId, link)
  {
    folders := folders0;
    if Qualifies(link) {
      var id := FolderId(link);
      if id !in folders {
        folders := folders[id := FolderRef(FolderUrl(link), {})];
      }
      folders := folders[id := folders[id].(hackpads := folders[id].hackpads + {padId})];
    }
  }

  lemma PadScanSnoc(done: Scan, pad: Pad, j: int)
    requires 0 <= j < |pad.hrefs|
    ensures done + PadScan(pad)[..j + 1] == (done + PadScan(pad)[..j]) + [(pad.padId, pad.hrefs[j])]
  {
    assert PadScan(pad)[..j + 1] == PadScan(pad)[..j] + [PadScan(pad)[j]];
  }

  /** Link `k` of the scan leads to folder `id`. */
  ghost predicate LinkAt(scan: Scan, k: int, id: string) {
    0 <= k < |scan| && LinksTo(scan[k].1, id)
  }

  /** Link `k` is the first link of the scan to folder `id`. */
  ghost predicate FirstLinkAt(scan: Scan, k: int, id: string) {
    LinkAt(scan, k, id) && forall j :: 0 <= j < k ==> !LinkAt(scan, j, id)
  }

  /** The pads of the scan holding a link to `id`. */
  ghost function PadsLinking(scan: Scan, id: string): set<string> {
    set k | 0 <= k < |scan| && LinkAt(scan, k, id) :: scan[k].0
  }

  /** The folders of a scan are exactly those some link leads to. */
  lemma {:induction false} AccumulateKeys(scan: Scan, id: string)
    ensures id in Accumulate(scan) <==> exists k :: LinkAt(scan, k, id)
    decreases |scan|
  {
    if scan != [] {
      var n := |scan| - 1;
      var t := scan[..n];
      AccumulateKeys(t, id);
      LinkAtPrefix(scan, id);
      assert Accumulate(scan) == Step(Accumulate(t), scan[n].0, scan[n].1);
      StepKeys(Accumulate(t), scan[n].0, scan[n].1, id);
      assert LinkAt(scan, n, id) <==> LinksTo(scan[n].1, id);
      if exists k :: LinkAt(scan, k, id) {
        var k :| LinkAt(scan, k, id);
        if k < n {
          assert LinkAt(t, k, id);
        }
      }
      if exists k :: LinkAt(t, k, id) {
        var k :| LinkAt(t, k, id);
        assert LinkAt(scan, k, id);
      }
    }
  }

  lemma StepKeys(acc: map<string, FolderRef>, padId: string, link: Url, id: string)
    ensures id in Step(acc, padId, link) <==> id in acc || LinksTo(link, id)
  {
  }

  lemma LinkAtPrefix(scan: Scan, id: string)
    requires scan != []
    ensures forall k :: 0 <= k < |scan| - 1 ==> (LinkAt(scan, k, id) <==> LinkAt(scan[..|scan| - 1], k, id))
  {
  }

  /** Each folder of a scan records every pad that links to it. */
  lemma {:induction false} AccumulatePads(scan: Scan, id: string)
    requires id in Accumulate(scan)
    ensures Accumulate(scan)[id].hackpads == PadsLinking(scan, id)
    decreases |scan|
  {
    var n := |scan| - 1;
    var t := scan[..n];
    AccumulateKeys(t, id);
    if id in Accumulate(t) {
      AccumulatePads(t, id);
    } else {
      assert PadsLinking(t, id) == {};
    }
    PadsLinkingSnoc(scan, id);
  }

  /** Each folder of a scan keeps the URL of the first link to it. */
  lemma {:induction false} AccumulateUrl(scan: Scan, id: string)
    requires id in Accumulate(scan)
    ensures exists k :: FirstLinkAt(scan, k, id) && Accumulate(scan)[id].url == FolderUrl(scan[k].1)
    decreases |scan|
  {
    var n := |scan| - 1;
    var t := scan[..n];
    if id in Accumulate(t) {
      AccumulateUrl(t, id);
      var k :| FirstLinkAt(t, k, id) && Accumulate(t)[id].url == FolderUrl(t[k].1);
      FirstLinkKept(scan, id, k);
      assert Accumulate(scan)[id].url == Accumulate(t)[id].url;
    } else {
      FirstLinkNew(scan, id);
    }
  }

  /** A first link of a prefix of the scan stays the first link of the scan. */
  lemma FirstLinkKept(scan: Scan, id: string, k: int)
    requires scan != [] && FirstLinkAt(scan[..|scan| - 1], k, id)
    ensures FirstLinkAt(scan, k, id) && scan[k] == scan[..|scan| - 1][k]
  {
    LinkAtPrefix(scan, id);
  }

  /** A folder that the last link of the scan adds has that link as its first link. */
  lemma FirstLinkNew(scan: Scan, id: string)
    requires scan != [] && id !in Accumulate(scan[..|scan| - 1]) && id in Accumulate(scan)
    ensures FirstLinkAt(scan, |scan| - 1, id) && Accumulate(scan)[id].url == FolderUrl(scan[|scan| - 1].1)
  {
    var n := |scan| - 1;
    var t := scan[..n];
    LinkAtPrefix(scan, id);
    AccumulateKeys(t, id);
    StepKeys(Accumulate(t), scan[n].0, scan[n].1, id);
  }

  lemma PadsLinkingSnoc(scan: Scan, id: string)
    requires scan != []
    ensures var n := |scan| - 1;
      PadsLinking(scan, id) == PadsLinking(scan[..n], id) + (if LinksTo(scan[n].1, id) then {scan[n].0} else {})
  {
    var n := |scan| - 1;
    var t := scan[..n];
    var x := scan[n];
    var hit := LinksTo(x.1, id);
    forall y | y in PadsLinking(scan, id) ensures y in PadsLinking(t, id) + (if hit then {x.0} else {}) {
      var k :| 0 <= k < |scan| && LinkAt(scan, k, id) && scan[k].0 == y;
      if k < n {
        assert t[k] == scan[k];
        assert LinkAt(t, k, id);
      }
    }
    forall y | y in PadsLinking(t, id) ensures y in PadsLinking(scan, id) {
      var k :| 0 <= k < |t| && LinkAt(t, k, id) && t[k].0 == y;
      assert t[k] == scan[k];
      assert LinkAt(scan, k, id);
    }
    if hit {
      assert LinkAt(scan, n, id);
    }
  }

  /** Scan members: each scanned link belongs to one of the pads, and every link of every
      pad is scanned. */
  lemma {:induction false} ScanOfMembers(pads: seq<Pad>)
    ensures forall e :: e in ScanOf(pads) <==> exists p :: p in pads && e.0 == p.padId && e.1 in p.hrefs
    decreases |pads|
  {
    if pads != [] {
      var n := |pads| - 1;
      ScanOfMembers(pads[..n]);
      var last := pads[n];
      forall e ensures e in PadScan(last) <==> e.0 == last.padId && e.1 in last.hrefs {
        if e.0 == last.padId && e.1 in last.hrefs {
          var k :| 0 <= k < |last.hrefs| && last.hrefs[k] == e.1;
          assert PadScan(last)[k] == e;
        }
      }
      assert forall p :: p in pads <==> p in pads[..n] || p == last;
    }
  }

  /** The pads of the diff set holding a link to `id`. */
  ghost predicate PadLinksTo(p: Pad, id: string) {
    exists l :: l in p.hrefs && LinksTo(l, id)
  }

  /** Extraction, stated over pads: the folders found are those that some pad of the diff
      set links to. */
  lemma ExtractKeysByPad(pads: seq<Pad>, diffPads: set<string>, id: string)
    ensures id in Accumulate(ScanOf(Scanned(pads, diffPads)))
      <==> exists p :: p in pads && p.padId in diffPads && PadLinksTo(p, id)
  {
    var scan := ScanOf(Scanned(pads, diffPads));
    AccumulateKeys(scan, id);
    PadsLinkingByPad(pads, diffPads, id);
    if exists k :: LinkAt(scan, k, id) {
      var k :| LinkAt(scan, k, id);
      assert scan[k].0 in PadsLinking(scan, id);
    }
    if exists p :: p in pads && p.padId in diffPads && PadLinksTo(p, id) {
      var p :| p in pads && p.padId in diffPads && PadLinksTo(p, id);
      assert p.padId in PadsLinking(scan, id);
    }
  }

  /** Each folder found records exactly the pads of the diff set that link to it. */
  lemma ExtractPadsByPad(pads: seq<Pad>, diffPads: set<string>, id: string)
    requires id in Accumulate(ScanOf(Scanned(pads, diffPads)))
    ensures Accumulate(ScanOf(Scanned(pads, diffPads)))[id].hackpads
      == set p | p in pads && p.padId in diffPads && PadLinksTo(p, id) :: p.padId
  {
    AccumulatePads(ScanOf(Scanned(pads, diffPads)), id);
    PadsLinkingByPad(pads, diffPads, id);
  }

  lemma PadsLinkingByPad(pads: seq<Pad>, diffPads: set<string>, id: string)
    ensures PadsLinking(ScanOf(Scanned(pads, diffPads)), id)
      == set p | p in pads && p.padId in diffPads && PadLinksTo(p, id) :: p.padId
  {
    var scan := ScanOf(Scanned(pads, diffPads));
    var want := set p | p in pads && p.padId in diffPads && PadLinksTo(p, id) :: p.padId;
    forall y | y in PadsLinking(scan, id) ensures y in want {
      var k :| 0 <= k < |scan| && LinkAt(scan, k, id) && scan[k].0 == y;
      var p := PadOfLink(pads, diffPads, id, k);
    }
    forall y | y in want ensures y in PadsLinking(scan, id) {
      var p :| p in pads && p.padId in diffPads && PadLinksTo(p, id) && p.padId == y;
      var k := LinkOfPad(pads, diffPads, id, p);
    }
  }

  /** The URL recorded for a folder has the host of the first link to it (for links as
      `urlparse` returns them). */
  lemma FoundHost(pads: seq<Pad>, diffPads: set<string>, id: string)
    requires id in Accumulate(ScanOf(Scanned(pads, diffPads)))
    requires forall p, l :: p in pads && l in p.hrefs ==> WellFormed(l)
    ensures exists k ::
      (FirstLinkAt(ScanOf(Scanned(pads, diffPads)), k, id)
       && NetlocOf(Accumulate(ScanOf(Scanned(pads, diffPads)))[id].url) == ScanOf(Scanned(pads, diffPads))[k].1.netloc)
  {
    var scan := ScanOf(Scanned(pads, diffPads));
    AccumulateUrl(scan, id);
    var k :| FirstLinkAt(scan, k, id) && Accumulate(scan)[id].url == FolderUrl(scan[k].1);
    var p := PadOfLink(pads, diffPads, id, k);
    FolderUrlHost(scan[k].1);
  }

  /** The pad a scanned link to `id` comes from. */
  lemma PadOfLink(pads: seq<Pad>, diffPads: set<string>, id: string, k: int) returns (p: Pad)
    requires LinkAt(ScanOf(Scanned(pads, diffPads)), k, id)
    ensures p in pads && p.padId in diffPads && PadLinksTo(p, id) && p.padId == ScanOf(Scanned(pads, diffPads))[k].0
    ensures ScanOf(Scanned(pads, diffPads))[k].1 in p.hrefs
  {
    var scanned := Scanned(pads, diffPads);
    var scan := ScanOf(scanned);
    ScanOfMembers(scanned);
    assert scan[k] in scan;
    p :| p in scanned && scan[k].0 == p.padId && scan[k].1 in p.hrefs;
  }

  /** A scanned link to `id` from a changed pad that links to `id`. */
  lemma LinkOfPad(pads: seq<Pad>, diffPads: set<string>, id: string, p: Pad) returns (k: int)
    requires p in pads && p.padId in diffPads && PadLinksTo(p, id)
    ensures LinkAt(ScanOf(Scanned(pads, diffPads)), k, id) && ScanOf(Scanned(pads, diffPads))[k].0 == p.padId
  {
    var scanned := Scanned(pads, diffPads);
    var scan := ScanOf(scanned);
    ScanOfMembers(scanned);
    var l :| l in p.hrefs && LinksTo(l, id);
    assert (p.padId, l) in scan;
    k :| 0 <= k < |scan| && scan[k] == (p.padId, l);
  }

  /** An example folder link yields folder "abc123" ... */
  lemma ExampleLink()
    ensures var link := Url("https", "hackfoldr.org", "/abc123/extra", "", "", "");
      && Qualifies(link) && FolderId(link) == "abc123"
  {
    assert OccursAt("hackfoldr.org", FolderHost, 0);
    ExamplePath();
  }

  /** ... and the folder URL keeps only the first two path segments. */
  lemma ExampleFolderUrl()
    ensures var link := Url("https", "hackfoldr.org", "/abc123/extra", "", "", "");
      && Qualifies(link) && FolderUrl(link) == "https://hackfoldr.org/abc123"
  {
    ExampleLink();
    ExampleCut();
    ExampleUnparse();
  }

  lemma ExampleCut()
    ensures var link := Url("https", "hackfoldr.org", "/abc123/extra", "", "", "");
      var segments := Split(link.path, '/');
      link.(path := segments[0] + segments[1]) == Url("https", "hackfoldr.org", "abc123", "", "", "")
  {
    ExamplePath();
  }

  lemma ExampleUnparse()
    ensures Unparse(Url("https", "hackfoldr.org", "abc123", "", "", "")) == "https://hackfoldr.org/abc123"
  {
    var s := Unparse(Url("https", "hackfoldr.org", "abc123", "", "", ""));
    assert s == "https:" + "//" + "hackfoldr.org" + "/abc123";
    var w := "https://hackfoldr.org/abc123";
    assert |s| == |w|;
    forall i | 0 <= i < |w| ensures s[i] == w[i] {
    }
  }

  /** A link to another host yields no folder. */
  lemma ExampleOtherHost()
    ensures !Qualifies(Url("https", "example.org", "/abc123/extra", "", "", ""))
  {
    assert |FolderHost| == 13;
  }

  lemma ExamplePath()
    ensures Split("/abc123/extra", '/') == ["", "abc123", "extra"]
  {
    var parts := ["", "abc123", "extra"];
    JoinCons("abc123", ["extra"], '/');
    assert parts[1..] == ["abc123"] + ["extra"];
    JoinCons("", parts[1..], '/');
    assert [""] + parts[1..] == parts;
    assert Join(parts, '/') == "/abc123/extra";
    SplitUnique(parts, "/abc123/extra", '/');
  }
}
