# Hackfoldr index pipeline, modelled in Dafny

This project models the folder-index pipeline of `Hackfoldrs` in `hackfoldrs.py`. One run
of `gen_foldrs` does five things:

1. It scans the hackpads that changed since the last run for links to hackfoldr folders
   (`_find_new_foldrs`).
2. It merges the folders it finds into the records of the prior `foldrs.json`
   (`_merged_foldr`).
3. It resolves each folder's table from Google Sheets or Ethercalc (`_get_csv_google`,
   `_get_csv_ethercalc`, `_get_csv`).
4. It stamps each resolved folder with its source and the time of its last change.
5. It writes the new index: only folders that have a source, each with its pads as a
   sorted list.

The model follows the code's structure. The Python helpers the pipeline relies on are
modelled as they behave in Python:
- `str.split`, `in` on strings, string ordering and `sorted`;
- `set(...)` of a JSON value;
- `urlparse(...).netloc` and `geturl()`;
- `max` over datetimes, and `isoformat()` with `Z` for UTC.

The loops that work step by step are methods, each proved equal to a function that defines its result:
- the link scan;
- the merge loop;
- loading the prior index;
- the fetch loop;
- `gen_foldrs` itself.

Exceptions the code can raise are modelled as `Err` values named after the Python
exception. HTTP responses, the pad corpus and the prior file are inputs:
- a backend map lacks an id exactly when that request answers with a status other than 200;
- a prior index of `None` stands for an unreadable `foldrs.json`.

The modules are:
- `Base`: Option, Result and exceptions.
- `Strings`: Python string operations.
- `Urls`: URL parsing and writing.
- `Json`: record values.
- `Times`: datetimes, `max` and the ISO rendering.
- `Extract`: link scanning.
- `Merge`: record merge.
- `Backends`: table resolution.
- `Index`: the stages of `gen_foldrs`.
- `Pipeline`: the whole run and its end-to-end properties.

Three behaviours of the code are worth knowing:
- Google is always tried first, then Ethercalc.
- A folder the prior index listed keeps its prior `source` through the merge. It
  therefore stays in the new index when it fails to resolve in this run
  (`Pipeline.IndexedFolders`, `Pipeline.IndexedStamps`).
- When an Ethercalc sheet redirects to a Google sheet, the Google table is reported with
  source `ethercalc`.

## Model

| member | source | states |
|---|---|---|
| Strings.Contains | hackfoldrs.py:46 | Substring test: true exactly when the needle occurs at some index of the text. |
| Strings.Split | hackfoldrs.py:45 | Splitting at '/' gives at least one piece. No piece contains the separator, and joining the pieces with it gives back the path. |
| Strings.SplitUnique | hackfoldrs.py:45 | Any separator-free cut of a string whose join is the string is its split, so a path's segments are determined. |
| Strings.BelowTransitive | hackfoldrs.py:67 | Python's string order is transitive. |
| Strings.BelowTotal | hackfoldrs.py:67 | Any two distinct strings are ordered one way or the other. |
| Strings.SortedOf | hackfoldrs.py:67 | The sorted list of a set is strictly increasing. It holds exactly the set's elements, once each. |
| Strings.SortedOfElements | hackfoldrs.py:186 | The elements of the sorted list, taken as a set, are the original set. |
| Urls.NetlocOf | hackfoldrs.py:176 | `urlparse(s).netloc`: after a scheme, the text between a leading `//` and the next `/`, `?` or `#`, and empty without `//`. |
| Urls.Unparse | hackfoldrs.py:51 | `geturl()` of a URL with a host: scheme and `:`, `//`, host, the path rooted at `/` with its parameters, then query and fragment when present. |
| Urls.NetlocRoundTrip | hackfoldrs.py:176 | Parsing a URL written by `geturl()` gives back the host it was written with. |
| Json.ToSet | hackfoldrs.py:167 | `set(v)` fails with TypeError exactly for numbers, booleans and null. A list yields its elements, a set itself, a string its one-character strings and an object its keys. |
| Extract.Scanned | hackfoldrs.py:30 | The scanned pads are exactly the pads whose id is among the changed pads. |
| Extract.ScannedAppend | hackfoldrs.py:30 | The filter keeps manifest order: the pads kept from two runs of the manifest are those of the first run followed by those of the second. |
| Extract.ScannedSingle | hackfoldrs.py:30 | A single pad is kept exactly when its id is among the changed pads, so a pad listed twice is kept twice. |
| Extract.Qualifies | hackfoldrs.py:44-49 | A link is kept when its host contains `hackfoldr.org` and its path, split at '/', has a non-empty second piece. |
| Extract.FolderId | hackfoldrs.py:52 | The folder id is the second '/'-piece of the link's path. It is non-empty and holds no '/'. |
| Extract.FolderUrl | hackfoldrs.py:51 | The folder URL is the link written by `geturl()` with its path replaced by its first two pieces joined without a separator. |
| Extract.Step | hackfoldrs.py:53-55 | One link's effect: a non-qualifying link changes nothing; a qualifying one enters its folder with the link's URL when new, then adds the pad. |
| Extract.LinksToIff | hackfoldrs.py:44-52 | A link leads to folder `id` exactly when its host contains `hackfoldr.org` and `id` is the non-empty second '/'-segment of its path. |
| Extract.FolderUrlHost | hackfoldrs.py:51 | The folder URL cut from a link keeps the link's host. |
| Extract.AddLink | hackfoldrs.py:46-55 | One iteration of the link loop is one step of the scan fold. It enters the folder with the link's URL if new, then adds the pad. |
| Extract.ScanPad | hackfoldrs.py:41-55 | The link loop over one pad extends the fold by that pad's links in document order. |
| Extract.FindNewFolders | hackfoldrs.py:24-57 | The result is the fold of the scan step over every link of the changed pads, in pad and document order. |
| Extract.AccumulateKeys | hackfoldrs.py:53-54 | A folder is found exactly when some scanned link leads to it. |
| Extract.AccumulatePads | hackfoldrs.py:55 | A found folder's pads are exactly the scanned pads holding a link to it. |
| Extract.AccumulateUrl | hackfoldrs.py:51-54 | A found folder's URL is the folder URL of the first scanned link to it. Later links never change it. |
| Extract.ExtractKeysByPad | hackfoldrs.py:24-57 | A folder is found exactly when some changed pad links to it. |
| Extract.ExtractPadsByPad | hackfoldrs.py:24-57 | A found folder's pads are exactly the changed pads that link to it. |
| Extract.FoundHost | hackfoldrs.py:51-54 | A found folder's URL has the host of the first link to it, for links as `urlparse` returns them. |
| Extract.ExampleFolderUrl | hackfoldrs.py:45-52 | `https://hackfoldr.org/abc123/extra` qualifies and gives the folder URL `https://hackfoldr.org/abc123`. |
| Extract.ExampleOtherHost | hackfoldrs.py:46-47 | A link to another host does not qualify. |
| Merge.MergeValue | hackfoldrs.py:62-74 | Per field type: a list is united with the prior value's elements and kept strictly sorted (TypeError when that value is not iterable). A set is united with a prior set (TypeError against a prior non-set). A dict raises NotImplementedError. Anything else overwrites. |
| Merge.MergeFolder | hackfoldrs.py:62-75 | The merged record: the incoming fields applied in order to the prior record, the first field that cannot be merged aborting with its exception. |
| Merge.MergedFolder | hackfoldrs.py:59-75 | The merge loop computes the fold of the field merges over the incoming record's fields in order. |
| Merge.MergeFolderOk | hackfoldrs.py:62-75 | The merge succeeds exactly when every incoming field merges against the prior record. |
| Merge.MergeFolderFields | hackfoldrs.py:62-75 | A successful merge has the prior keys plus the incoming ones. Each incoming field holds its merge against the prior value, and every other field keeps its prior value. |
| Merge.MergeFolderError | hackfoldrs.py:62-75 | A failed merge reports the exception of the first incoming field that cannot be merged. |
| Merge.MergeValueIdempotent | hackfoldrs.py:63-70 | Merging a value into its own merge result gives that result again. |
| Merge.MergeIdempotent | hackfoldrs.py:59-75 | Merging the same record twice gives the record of merging it once. |
| Merge.MergeKeepsOldSet | hackfoldrs.py:68-70 | A prior set field never loses elements unless the incoming record overwrites it with a non-set. |
| Times.Latest | hackfoldrs.py:97 | `max` of a non-empty log is an entry of the log and no entry is later. |
| Times.IsoZ | hackfoldrs.py:180 | The rendering is 20 characters, with `-`, `T` and `:` at fixed places and `Z` last. |
| Times.IsoZColumns | hackfoldrs.py:180 | Each field of the time shows zero-padded in its own fixed columns. |
| Times.DigitsValue | hackfoldrs.py:180 | Reading a zero-padded field back gives the number modulo 10^width. |
| Times.IsoZInjective | hackfoldrs.py:180 | Two in-range times with the same rendering are the same time. |
| Backends.GsxFields | hackfoldrs.py:111 | Every field kept carries the `gsx$` prefix and belongs to the entry, and every prefixed field of the entry is kept. |
| Backends.GsxFieldsAppend | hackfoldrs.py:110-111 | The prefixed fields of two runs of fields, one after the other, are those of the first run followed by those of the second, so the entry's field order is kept. |
| Backends.GsxSingle | hackfoldrs.py:111 | A single field is kept exactly when its key starts with `gsx$`. |
| Backends.RowOf | hackfoldrs.py:110-111 | An entry's row exists exactly when each `gsx$` field has a `$t` text. It has one pair per such field, and otherwise the error is KeyError. |
| Backends.RowOfFields | hackfoldrs.py:110-111 | Each pair of the row is the field's key with the prefix stripped, and its text. |
| Backends.RowsOf | hackfoldrs.py:110-112 | The rows exist exactly when every entry's row does, one per entry, and otherwise the error is KeyError. |
| Backends.GoogleCsv | hackfoldrs.py:101-119 | A missing feed gives `(None, None)`. A table comes with a time. No table means no feed or no entries. A KeyError comes exactly from a missing `entry`, a field without `$t`, or entries without `updated`. |
| Backends.GoogleTable | hackfoldrs.py:110-117 | Google's table is a `#`-prefixed header row from the first entry's field names, then one row of texts per entry. Its time is the feed's `updated`. |
| Backends.EthercalcCsv | hackfoldrs.py:77-99 | A missing sheet gives `(None, None)`. An empty sheet or first row raises IndexError. A version-2 folder whose A1 cell is 40+ characters and does not start with `#` is resolved through Google. Otherwise the result is the sheet, with the latest log time when there is a log. An empty log raises ValueError. |
| Backends.Redirects | hackfoldrs.py:87 | An Ethercalc A1 cell redirects to Google for a version-2.0 folder when it does not start with `#` and is at least 40 characters long. |
| Backends.Usable | hackfoldrs.py:139 | A backend's answer is used when it has a non-empty table and a time. |
| Backends.ResolveCsv | hackfoldrs.py:121-146 | Google is used exactly when it yields a non-empty table and a time. Ethercalc is used exactly when Google does not and Ethercalc does. The result is unresolved when neither does. An exception of the backend tried propagates. |
| Index.LoadRecord | hackfoldrs.py:166-167 | A non-object record raises AttributeError. An object record loads exactly when its pads field is iterable (TypeError otherwise). The pads become `set(...)` of the pads field (empty when missing) and other fields are kept. |
| Index.LoadIndex | hackfoldrs.py:163-169 | An unreadable file gives an empty index. Loading succeeds exactly when every record loads, and then gives the pointwise loaded index. A failure is the error of some record. |
| Index.MixRecord | hackfoldrs.py:171 | The merge of a loaded prior record with a found record cannot fail. It takes the found URL and the union of both pad sets, adds no other field, and keeps every other prior field. |
| Index.MixIndex | hackfoldrs.py:171-172 | The merged map covers the prior ids and the found ids, each with its merged record. |
| Index.MixedKey | hackfoldrs.py:171 | Merging adds no field other than `url` and `hackpads`. |
| Index.MixedPadSets | hackfoldrs.py:171-172 | Every merged record keeps its pads as a set. |
| Index.MixIdempotent | hackfoldrs.py:171-172 | Merging the same findings into the merged map again changes nothing. |
| Index.VersionOf | hackfoldrs.py:176 | Version 2.0 exactly when the record's URL host contains `beta`. AttributeError exactly when the URL is not a string. |
| Index.Outcome | hackfoldrs.py:176-177 | A folder's outcome: the version taken from its URL, then `_get_csv` with that version; a URL that is not a string raises first. |
| Index.Refreshed | hackfoldrs.py:178-180 | A resolved folder gains its source name and its rendered time, and all else is kept. An unresolved one is unchanged. |
| Index.FetchAll | hackfoldrs.py:175-182 | The fetch loop succeeds exactly when no folder's resolution raises. It then gives every folder stamped by its own resolution and one table per resolved folder. A failure is some folder's exception. |
| Index.StampFolder | hackfoldrs.py:178-182 | One iteration of the fetch loop keeps the loop invariant. After it, exactly the done folders are stamped and have tables. |
| Index.FetchedSpec | hackfoldrs.py:175-182 | After the fetch loop the keys are unchanged. Each record is stamped by its own resolution, and the tables are exactly those of the resolved folders. |
| Index.FetchedAt | hackfoldrs.py:175-182 | The same, for one folder. |
| Index.CleanRecord | hackfoldrs.py:186 | The pads become a strictly sorted list of the same elements, and all other fields are kept. |
| Index.CleanIndex | hackfoldrs.py:186-187 | The written index keeps exactly the folders with a source, each cleaned. |
| Index.ReloadClean | hackfoldrs.py:167 | Loading a cleaned record gives back the record. |
| Pipeline.GenFolders | hackfoldrs.py:158-191 | A run succeeds exactly when the prior index loads and no folder's resolution raises. It then writes the index and tables that `Pipeline.Output` defines. A failure is some record's load error or some folder's resolution error. |
| Pipeline.WrittenAt | hackfoldrs.py:175-187 | A folder is written exactly when its stamped record has a source, and then as that record with its pads sorted. |
| Pipeline.LoadedSource | hackfoldrs.py:166-167 | A loaded prior record has a source exactly when the raw prior record had. |
| Pipeline.MixedSource | hackfoldrs.py:171-172 | A merged record has a source exactly when its loaded prior record had. |
| Pipeline.MixedUrl | hackfoldrs.py:171-172 | A folder found this run takes its found URL into the merged map. |
| Pipeline.MixedPads | hackfoldrs.py:171-172 | A merged record's pads are its prior pads plus the changed pads linking to it. |
| Pipeline.IndexedFolders | hackfoldrs.py:171-187 | The index holds a folder exactly when its prior record had a source or it resolved in this run. The merged map covers the prior and the found folders. |
| Pipeline.IndexedPads | hackfoldrs.py:167-187 | A written folder lists, strictly sorted, exactly its prior pads and every changed pad linking to it. |
| Pipeline.IndexedStamps | hackfoldrs.py:175-187 | A resolved folder is written with this run's source and time, and its table is written. An unresolved one has no table and keeps its prior source and time. |
| Pipeline.IndexedFoundUrl | hackfoldrs.py:171-187 | A written folder found this run carries the URL it was found under. |
| Pipeline.IndexedUrl | hackfoldrs.py:51-54 | That URL is the folder URL of the first link to the folder among the changed pads. |
| Pipeline.ReloadWritten | hackfoldrs.py:163-187 | Loading a written record back, as the next run does, gives the stamped record of this run. |
| Pipeline.FoundVersion | hackfoldrs.py:176 | A folder found this run is version 2.0 exactly when the host of the first link to it contains `beta`. |

## Left out

- File and network I/O are inputs:
  - reading `pads.json` and the pad HTML;
  - the HTTP requests;
  - writing the table files and `foldrs.json`;
  - `makedirs`;
  - the git operations (`pull_repo`, `copy_to_repo` and `backup.py`).
- HTML parsing is not modelled. Each pad is given as the parsed `href`s of its anchors, in
  document order, as `urlparse` components. Logging is left out.
- `urlparse` is modelled for the scheme/host split only. It has no whitespace stripping,
  no IPv6 bracket validation and no scheme-specific rules. `geturl()` is modelled for
  URLs that have a host, which every folder link has.
- Urls.NetlocRoundTrip: holds for components `urlparse` can return (a scheme of scheme
  characters starting with a letter, a host without `/?#`), not for arbitrary components.
- Extract.FoundHost and Pipeline.FoundVersion: require every link to be such a parse result.
- A record's URL is taken to be a string or absent. A non-string URL is modelled as an
  `AttributeError`. The falsy-value shortcut `urlparse` takes for non-strings is not
  modelled.
- Parsing the backends' date strings with `strptime` is not modelled, so neither are its
  `ValueError`s. Times come as parsed `DateTime`s.
- Ethercalc log entries are given as their parsed `mtime`.
- A Google field that is not an object is treated as one without `$t`.
- Malformed JSON in a status-200 response is not modelled, nor is a JSON array element
  that is not a string. Table cells are strings.
- The prior `foldrs.json` is taken to be a JSON object of records.
- A backend request that raises (a connection error) or never answers (no timeout is
  set), and an href that `urlparse` rejects with `ValueError` (such as an unbalanced IPv6
  bracket), all abort `gen_foldrs` in the code (hackfoldrs.py:44, 81, 93, 105). The model
  has no such inputs: responses are given as maps and hrefs as parsed components.
- The prior index is given as a `map`, which loses the file order of `foldrs.json` that
  `json.load` keeps and the load loop follows. When several prior records are bad, the
  model therefore reports the exception (AttributeError or TypeError) of some bad record,
  not necessarily the first in the file.
- The mix comprehension and the fetch loop iterate over a set of ids and over the mixed
  dict, whose order the model does not fix. Their successful results do not depend on
  it. When several folders raise, the model reports the exception of some of them.
- A run that fails in the fetch loop has already written the tables of the folders
  fetched before the failing one (hackfoldrs.py:181-182). The model's `Err` result
  carries no tables, so these partial writes are not modelled.
- Backends.Entry is a sequence of fields, which may repeat a key. The decoded
  `OrderedDict` cannot: it keeps a repeated key at its first position with its last
  value. Feed entries with repeated keys are not modelled.
- Index.MixIndex and Index.CleanIndex: require every record to hold its pads as a set. In
  the code this holds because loading and merging establish it (`Pipeline.Mixed`,
  `Index.MixedPadSets`).
