# grslicer core in Dafny

grslicer turns a triangle mesh into the layers a 3D printer prints. This
project models three parts of it:

- **The fixed-layer-height slicer** (`grslicer/slicer.py`).
  - The slicing heights start at `aabb.min z + layerHeight` and step by `layerHeight`.
  - Every non-horizontal edge goes into the bucket of each height it crosses. The heights tested for an edge come from a floor-division index window.
  - For every bucketed height, in ascending order, the slicer traces contours: it walks from face to face and consumes the pending crossing edges. That height becomes a layer numbered by its rank.
- **The STL importers and importer dispatch** (`grslicer/importers/stl.py` and `grslicer/importers/__init__.py`).
  - The ASCII importer recognises text by three keywords. It sizes the vertex merger by the number of `facet normal` occurrences and adds one point per line containing `vertex`.
  - The binary importer accepts everything else. It reads three vertices per 50-byte record after an 84-byte header.
  - `import_file` runs the first importer that accepts the contents.
- **The settings store** (`grslicer/settings.py`).
  - The catalogue is a fixed list of named settings in groups. It has two lookup tables, name to group and group to name to setting.
  - The three `convert` rules: float, int and the boolean word parser.
  - `SlicerSettings`: construction from defaults, `[]` read and write, `load` from a form, and `to_dict`.

The modules follow the program:

- `Outcomes`: Option and Result.
- `Mesh`: the topology the slicer reads.
- `Planes`: the slicing heights and the index window.
- `Buckets`: `_init_edge_height_map`.
- `Contours`: the contour walk.
- `Slicer`: `slice`.
- `ByteText`: the Python 2 byte-string operations the importers use.
- `Stl`: the importers.
- `Importers`: dispatch.
- `SettingValues`: Python values, `convert`, `cm` and `um`.
- `Catalogue`: `DEFAULT_SETTINGS` and its tables.
- `Settings`: the store.

Parts the model receives as parameters:

- The end rule of `np_range`: whether the top of the bounding box can itself be a slicing height.
- `float()` of a token, `unpack('f', ...)` of four bytes, and `float()` and `int()` of text. Each is an abstract function.
- The iteration order of the reverse map in `load`: a sequence `order` that enumerates the declared names.
- The element `set.pop()` removes: any pending edge.

An importer run is modelled as the log of calls it makes on the vertex merger: the row count, the tolerance, then `add` calls and one `finalize`.

## Model

| member | source | states |
|---|---|---|
| Planes.PlanesLayout | grslicer/slicer.py:25-29 | The slicing heights start at `minZ + lh`. They are evenly spaced by `lh` and strictly increase. None passes the top of the bounding box, and the next step would pass it. |
| Planes.SliceBound | grslicer/slicer.py:46 | A Python slice bound lands in `[0, len]`. A bound inside the list is kept. A negative bound counts from the end, clamped at 0. |
| Planes.WindowComplete | grslicer/slicer.py:33-47 | With the start clamped at 0, the index window of an edge `[lo, hi]` contains every index whose height satisfies `lo < h <= hi`, so the pre-filter loses no crossing. |
| Planes.WindowAsWrittenAgrees | grslicer/slicer.py:42-46 | When `lo >= bottom`, `idx_start` as written is non-negative and the window as written equals the clamped one. |
| Buckets.EdgeWindowsAsWritten | grslicer/slicer.py:33-46 | When no edge reaches below `bottom`, every edge's window is exactly the one the code computes. |
| Slicer.SliceWindowsAsWritten | grslicer/slicer.py:29-46 | For a mesh whose edges lie inside its bounding box, `bottom` is the box's lowest height, so every edge's window on the slicing heights is exactly the one the code computes. |
| Planes.WindowAsWrittenMissesBelowBottom | grslicer/slicer.py:42-46 | A concrete edge reaching below `bottom` gets an empty window as written. The clamped window keeps the crossing at index 0. |
| Buckets.AddToBucket | grslicer/slicer.py:48 | `setdefault(h, set()).add(e)` adds the key `h` if missing and puts `e` in its bucket. Every other bucket is unchanged. |
| Buckets.BuildEdgeMap | grslicer/slicer.py:31-48 | Every bucket is non-empty, is keyed by a slicing height, and holds only edges that cross that height, so horizontal edges are never bucketed. On evenly spaced heights, the keys are exactly the crossed heights and each bucket is exactly the set of edges crossing its height. |
| Buckets.BucketsExact | grslicer/slicer.py:38-48 | On evenly spaced heights, a sound map that recorded every crossing in the windows is exactly the crossing relation. |
| Contours.LeavingFace | grslicer/slicer.py:80-85 | With no previous face, or coming through any face other than `face_a`, the step leaves through `face_a`. Coming through `face_a`, it leaves through `face_b`, which is absent for a one-faced edge. On a two-faced edge it never leaves through the face it came through. |
| Contours.FirstPendingIndex | grslicer/slicer.py:88 | The index of the first edge of the face that is still pending. All edges before it are not pending. |
| Contours.NextPending | grslicer/slicer.py:88 | The chosen edge is the first pending edge in the face's edge list. There is none exactly when no edge of the face is pending. |
| Contours.Walk | grslicer/slicer.py:71-94 | A walk that ends cleanly visits distinct edges, all of them pending. A failing walk names a one-faced edge that was entered or pending. The walk terminates because each step consumes a pending edge. |
| Contours.Contour | grslicer/slicer.py:66-97 | A contour starts at the popped edge and visits distinct pending edges. A failure names a pending one-faced edge. |
| Contours.TracedPartitions | grslicer/slicer.py:60-97 | Every contour of a height is non-empty, and no edge appears twice among them. Together they cover the bucket, so the total number of points equals the bucket size. |
| Contours.TraceContour | grslicer/slicer.py:64-97 | The inner `while True` loop pops some pending edge and produces exactly the contour traced from it. On success the pending set afterwards is the set before minus that contour's edges. |
| Contours.TraceHeight | grslicer/slicer.py:60-97 | The contours of one bucket are a complete trace of it. A failure comes from a one-faced edge in the bucket, so a closed surface never fails. |
| Slicer.SortedHeights | grslicer/slicer.py:58 | `sorted(keys)` holds exactly the keys, each once, in strictly increasing order. |
| Slicer.IncreasingUnique | grslicer/slicer.py:58 | Two strictly increasing sequences with the same elements are equal, so the sorted order is unique. |
| Slicer.CrossedHeights | grslicer/slicer.py:56-58 | A height is in the result exactly when it is a slicing height crossed by some edge. |
| Slicer.SortedKeysAreCrossedHeights | grslicer/slicer.py:56-58 | The sorted bucket keys are the crossed slicing heights in ascending order. |
| Slicer.TraceLayers | grslicer/slicer.py:58-109 | Layer `j` stands at the `j`-th height, has sequence number `j`, and holds a complete trace of that height's bucket. A failure names a one-faced crossing edge, and a closed surface never fails. |
| Slicer.Slice | grslicer/slicer.py:25-109 | With no slicing heights it fails before building any layer. Otherwise there is one layer per crossed height, numbered 0, 1, 2, … with strictly increasing heights, each holding the traced contours of its height. Only an open edge makes it fail. |
| ByteText.CountZeroIffAbsent | grslicer/importers/stl.py:13-21 | `count(p)` of a non-empty pattern is zero exactly when `p in s` is false. |
| ByteText.CountFits | grslicer/importers/stl.py:20-21 | The counted occurrences do not overlap: `count(p) * len(p) <= len(s)`. |
| ByteText.SplitLines | grslicer/importers/stl.py:29 | `splitlines()` yields lines that contain no line breaks. |
| ByteText.SplitLinesLayout | grslicer/importers/stl.py:29 | Each line occurs in the contents at a start position. The first starts at 0. Consecutive lines are separated by exactly one break: `\n`, `\r`, or a `\r\n` pair that is never split. The last line runs to the end or to one final break. Empty contents give no lines. |
| ByteText.ContainedInSomeLine | grslicer/importers/stl.py:29-30 | A break-free pattern found in the contents is found in some line. |
| ByteText.WordLengthMaximal | grslicer/importers/stl.py:32 | The word run at the start of a string has no whitespace, and it ends at whitespace or at the end of the string. |
| ByteText.TokensAreWords | grslicer/importers/stl.py:32 | `split()` yields non-empty tokens without whitespace. |
| ByteText.TokensLayout | grslicer/importers/stl.py:32 | Each token of `split()` is a whole maximal run of non-whitespace bytes of the line, at a position where a word starts. The positions increase, so the tokens keep the order of the text. Every word start in the line is one of them. |
| ByteText.LastThreeKeepsTail | grslicer/importers/stl.py:32 | `[-3:]` keeps the last three tokens, or all of them when there are fewer. |
| Stl.AddAllThenFinalize | grslicer/importers/stl.py:33-35 | The calls are one `add` per point, in order, followed by exactly one `finalize`. |
| Stl.AcceptedAsciiHasFaces | grslicer/importers/stl.py:12-21 | Contents the ASCII importer accepts announce at least one face. |
| Stl.VertexLinesSelected | grslicer/importers/stl.py:29-30 | Every selected line is a line of the contents and contains `vertex`. |
| Stl.VertexLinesCount | grslicer/importers/stl.py:29-30 | There are as many selected lines as lines containing `vertex`. |
| Stl.VertexLinesIndexed | grslicer/importers/stl.py:29-30 | The selected lines correspond one to one, in order, with the lines containing `vertex`: each is the line at a position that strictly increases along the selection, and every line containing `vertex` is selected. |
| Stl.ParseVertexLine | grslicer/importers/stl.py:32 | A failing line reports itself as the malformed line. When a line fails and when it succeeds is stated, in both directions, by Stl.VertexLinePoint. |
| Stl.VertexLinePoint | grslicer/importers/stl.py:32 | A line parses exactly when it has at least three tokens and `float()` accepts each of the last three. Its point is then those three numbers, in order. A line with fewer tokens fails. |
| Stl.ParseVertexLines | grslicer/importers/stl.py:29-33 | A successful parse yields one point per vertex line. |
| Stl.ParseVertexLinesPointwise | grslicer/importers/stl.py:29-33 | Each point is the parse of its own vertex line, in order. A failure is the failure of some vertex line. |
| Stl.AsciiImport | grslicer/importers/stl.py:15-36 | The merger gets `3 * count('facet normal')` rows and the `roundOffError` tolerance. It receives one `add` per vertex line, with that line's point, in line order, then one `finalize`. A failure is a vertex line that `ParseVertexLine` rejects, which by Stl.VertexLinePoint is a line with fewer than three tokens or with one of its last three tokens that `float()` does not accept. |
| Stl.AcceptedAsciiAddsVertices | grslicer/importers/stl.py:12-35 | Accepted ASCII contents that import reach the merger with at least one `add`. |
| Stl.ImportAsciiLoop | grslicer/importers/stl.py:27-36 | The line loop computes exactly the ASCII import. |
| Stl.ParseLinesLoop | grslicer/importers/stl.py:29-33 | The loop parses exactly the vertex lines, in order, and stops at the first failure. |
| Stl.ParseVertexLinesErrSticks | grslicer/importers/stl.py:29-33 | Once a vertex line fails, later lines do not change the outcome. |
| Stl.ExactlyOneStlImporterAccepts | grslicer/importers/stl.py:40-43 | Exactly one of the two STL importers accepts any contents. |
| Stl.BinaryFaceCount | grslicer/importers/stl.py:45-46 | The face count is `(len - 84) / 50` rounded towards minus infinity. |
| Stl.TrailingBytesIgnored | grslicer/importers/stl.py:45-46 | Bytes short of a whole record after the last record do not change the face count. |
| Stl.RecordLayout | grslicer/importers/stl.py:49-65 | Every byte read for vertex `j` of face `f` lies after the record's 12-byte normal and before its attribute count, inside the contents. |
| Stl.BinaryImport | grslicer/importers/stl.py:48-59 | The merger gets 3 × the face count rows. It receives three `add` calls per complete record (none when the count is negative), then one `finalize`. |
| Stl.ImportBinaryLoop | grslicer/importers/stl.py:48-65 | The two nested loops compute the binary import. The `i`-th `add` is vertex `i % 3 + 1` of face `i / 3`, read at `84 + 50f + 12j` plus `4c` per coordinate. |
| Importers.RunImporter | grslicer/importers/__init__.py:16-18 | An importer never reports unrecognised contents. A successful run ends with exactly one `finalize` and uses the configured tolerance. |
| Importers.FirstAccepting | grslicer/importers/__init__.py:15-19 | Gives the position of the first importer that accepts the contents, with no earlier one accepting. It gives none exactly when no importer accepts. |
| Importers.ImportContents | grslicer/importers/__init__.py:10-24 | The result is "not recognised" exactly when no importer accepts. Otherwise it is the run of the first accepting importer. |
| Importers.StlImportNeverUnrecognised | grslicer/importers/__init__.py:3-21 | With `ALL_IMPORTERS` the exception path is never taken. ASCII contents go to the ASCII importer and everything else to the binary one. |
| Importers.ImportFile | grslicer/importers/__init__.py:15-21 | The loop with its `break` and the final `result is None` test computes `ImportContents`. |
| SettingValues.BoolConvert | grslicer/settings.py:50-54 | A bool is returned unchanged. A float or None is never true. |
| SettingValues.BoolTextAccepted | grslicer/settings.py:54 | Text converts to true exactly when it spells TRUE, 1, T, Y or YES in any mix of letter case. |
| SettingValues.BoolIntAccepted | grslicer/settings.py:54 | An integer converts to true exactly when it is 1. |
| SettingValues.Truncate | grslicer/settings.py:43-44 | `int(x)` rounds a float towards zero. |
| SettingValues.IntConvert | grslicer/settings.py:42-44 | `int(None)` raises `TypeError`. Text that parses gives the parsed integer; text fails with `ValueError` only when it does not parse. Integers are kept, floats are truncated toward zero, and bools become 0 or 1. |
| SettingValues.FloatConvert | grslicer/settings.py:34-36 | `float(None)` raises `TypeError`. Text that parses gives the parsed number; text fails with `ValueError` only when it does not parse. Floats are kept, integers are widened, and bools become 0.0 or 1.0. |
| SettingValues.Cm | grslicer/settings.py:58-59 | Centimetres to millimetres: the result is ten times the input. |
| SettingValues.Um | grslicer/settings.py:62-63 | Micrometres to millimetres: the result is a thousandth of the input. |
| Catalogue.SettingsIter | grslicer/settings.py:179-182 | Every entry produced carries the key of a group together with one of that group's settings. |
| Catalogue.SettingsIterLayout | grslicer/settings.py:179-182 | There are as many entries as the groups declare settings. The `j`-th setting of group `i` comes paired with the group's key at the position after all settings of earlier groups and the first `j` of its own. So every setting is yielded, group by group, in declaration order. |
| Catalogue.SettingsIterEntry | grslicer/settings.py:179-182 | The `j`-th setting of group `i` is yielded, paired with its group's key, after every setting of the earlier groups and the first `j` of its own group. |
| Catalogue.ReverseMapCovers | grslicer/settings.py:185-189 | The reverse map has exactly one key per declared name. |
| Catalogue.ReverseMapFindsGroup | grslicer/settings.py:185-189 | With unique names, the reverse map sends every setting's name to its group. |
| Catalogue.SettingsDictFindsItem | grslicer/settings.py:192-197 | With unique names, every setting is found under its group and name in the settings dictionary. |
| Catalogue.SettingsDictDeclared | grslicer/settings.py:192-197 | Everything in the settings dictionary was declared under that group. |
| Catalogue.TablesAgree | grslicer/settings.py:185-201 | With unique names, the two tables cover the same names. Looking a name up through the reverse map and then the settings dictionary gives back its setting. |
| Catalogue.CatalogueNamesUnique | grslicer/settings.py:66-176 | No two settings of `DEFAULT_SETTINGS` share a name, within or across groups. |
| Catalogue.CatalogueTablesAgree | grslicer/settings.py:185-201 | For the catalogue, `DEFAULT_SETTINGS_DICT[DEFAULT_SETTINGS_GROUPS_REVERSE[name]][name]` is the setting declared under that name, and both tables list the same names. |
| Catalogue.CatalogueDefaultsFit | grslicer/settings.py:66-176 | Every declared default has its setting's type and lies in its declared range. |
| Settings.SchemaOf | grslicer/settings.py:185-201 | The declared settings read through the two tables list every entry under its own name. |
| Settings.Declared | grslicer/settings.py:200-201 | The catalogue's declared settings hold every entry under its own name, and every default fits. |
| Settings.DeclaredReadsTables | grslicer/settings.py:228-229 | The lookup in `__setitem__` finds the declared setting of every declared name. Every other key misses the reverse map. |
| Settings.Convert | grslicer/settings.py:34-54 | A converted value has the type its setting stores. Bools and numbers always convert. None converts only for a bool setting. |
| Settings.ConvertIdempotent | grslicer/settings.py:34-54 | A stored value converts to itself, so converting twice is converting once. |
| Settings.DefaultConverts | grslicer/settings.py:210-211 | A fitting default converts to the same number, and an integer default of a float setting becomes a float. |
| Settings.GetItem | grslicer/settings.py:225-226 | Reading gives the stored value, or `KeyError` exactly when the name is absent. |
| Settings.GetItemDeclared | grslicer/settings.py:225-226 | In a valid store exactly the declared names can be read, each with its setting's type. |
| Settings.SetItem | grslicer/settings.py:228-230 | An undeclared key fails with `KeyError` before any conversion. A failed conversion is reported. On success the key holds the converted value, no other key changes, and the store stays valid. No range check is made. |
| Settings.SetItemIdempotent | grslicer/settings.py:228-230 | Writing the same value twice leaves the store as writing it once. |
| Settings.SetItemOwnValue | grslicer/settings.py:225-230 | Writing back the value just read changes nothing. |
| Settings.FormKeyLayout | grslicer/settings.py:232-234 | `'{key}'` formats to the name. `'{group}[{key}]'` formats to the group key, `[`, the name and `]`. |
| Settings.LoadFrom | grslicer/settings.py:232-237 | The loop succeeds exactly when no visited name is supplied a value that fails to convert. Otherwise it reports the first such name. |
| Settings.LoadFromFrame | grslicer/settings.py:233-237 | A successful loop changes only the names it visits. |
| Settings.LoadFromValues | grslicer/settings.py:233-237 | After a successful loop, each visited name holds its converted form value when the form supplies one, and its old value otherwise. |
| Settings.LoadFromAll | grslicer/settings.py:232-237 | Visiting every declared name, the loop is described name by name. |
| Settings.Load | grslicer/settings.py:232-237 | `load` fails exactly when the form supplies a value that does not convert, and names such a setting. On success it overwrites exactly the names whose form key maps to a non-None value, and every other name keeps its value. |
| Settings.LoadKeepsValid | grslicer/settings.py:232-237 | Loading keeps a valid store valid. |
| Settings.LoadedDetermines | grslicer/settings.py:232-237 | The per-name description of a successful load determines the resulting store. |
| Settings.LoadOrderIrrelevant | grslicer/settings.py:233 | The order in which the reverse map is visited does not change a successful load. |
| Settings.LoadIdempotent | grslicer/settings.py:232-237 | Loading the same form twice is loading it once. |
| Settings.LoadNothing | grslicer/settings.py:235-237 | A form that supplies no name leaves the store unchanged. |
| Settings.LoadOwnValues | grslicer/settings.py:232-237 | Loading a valid store's values keyed by bare name into any valid store reproduces the first store. |
| Settings.DefaultsFrom | grslicer/settings.py:210-211 | The defaults loop stores each visited setting's converted default under its name. It fails exactly when some default does not convert. |
| Settings.DefaultsFromAll | grslicer/settings.py:210-211 | Over all declared names, the defaults loop gives a valid store with one converted default per name. |
| Settings.Init | grslicer/settings.py:206-214 | Construction succeeds exactly when every default converts and a non-empty mapping supplies only convertible values. The store is then valid, and each name holds its supplied value, converted, or else its converted default. |
| Settings.InitIsLoad | grslicer/settings.py:206-214 | Constructing with a mapping equals constructing with defaults and then loading the mapping keyed by bare name. |
| Settings.InitStoresDefaults | grslicer/settings.py:206-211 | When every default fits, construction without a mapping succeeds and stores each declared default. |
| Settings.CatalogueInit | grslicer/settings.py:206-211 | For the catalogue, `SlicerSettings()` succeeds and holds exactly one converted default per declared setting. |
| Settings.FirstMissing | grslicer/settings.py:239-245 | Gives the first setting, in `settings_iter` order, whose name the store lacks. |
| Settings.DictOfMirrorsSettingsDict | grslicer/settings.py:239-245 | The nested dictionary has the groups and names of the settings dictionary and holds the store's values. |
| Settings.ToDictOf | grslicer/settings.py:239-245 | `to_dict` fails with `KeyError` exactly when the store lacks a setting. Otherwise it has the shape of `DEFAULT_SETTINGS_DICT` and holds the current values. |
| Settings.ToDictOfValid | grslicer/settings.py:239-245 | `to_dict` of a valid store succeeds, and each value is what `settings[name]` reads. |
| Settings.CatalogueToDict | grslicer/settings.py:239-245 | For the catalogue, `to_dict` of a valid store has exactly the groups and names of `DEFAULT_SETTINGS_DICT` with the current values. |
| Settings.GroupedKeyInjective | grslicer/settings.py:232-234 | With group keys free of `[`, `'{group}[{key}]'` is one-to-one. |
| Settings.GroupedFormEntry | grslicer/settings.py:234-235 | The grouped form supplies every stored setting with the store's value. |
| Settings.LoadGroupedForm | grslicer/settings.py:232-237 | Loading a valid store's grouped form into any valid store reproduces the first store. |
| Settings.CatalogueBracketFree | grslicer/settings.py:66-176 | The catalogue's group keys contain no `[`, so its grouped form keys are one-to-one. |

## Left out

- The vertex merger is not part of this model. Tolerance merging and edge and face construction are not modelled; an import is the log of calls made on the merger.
- `np_range`, `to_ndarray`, `TopoModel`, `Layer` and `LayeredModel` are not part of this model. The end rule of `np_range` is a parameter, and a layer is a record of height, sequence number and contours.
- `cynp.edge_intersection` is not part of this model. A contour is the sequence of crossing edges it visits rather than their 2D intersection points.
- `fill_layer` and the rest of the infill and output are not modelled. `add_layer` is modelled only by the layer's height, sequence number and contours.
- The progress reporting decorator and calls are not modelled, because they are observational only.
- Reading the file and `result.center(...)` in `import_file` are not modelled, because they are I/O and a topology operation that is not shown.
- `float()` of text, `int()` of text and `unpack('f', ...)` are abstract function parameters. Native byte order and float rounding are not modelled.
- Heights are exact reals. Only the finding below concerns the rounding of `positions[0] - lh`.
- Slicer.Slice: a non-positive layer height is treated as giving no slicing heights, because what `np_range` does then is not shown.
- Contours.TraceContour: `prev_face is edge.face_a` compares objects; the model compares face ids, which is the same for a topology whose faces are distinct objects.
- Stl.ParseVertexLine: a vertex line with fewer than three tokens is a failure. In the source one of its tokens then contains `vertex`, and `float()` raises on it; the abstract parser is not required to reject that token.
- SettingValues.BoolConvert: `str()` of a float is never one of the words; the model states it rather than deriving it from float formatting.
- SettingValues.Upper: upper-casing covers the ASCII letters only, as Python 2 `str.upper` does without a locale.
- SettingValues.Truncate: `int()` of an infinite or NaN float raises in the source; reals have neither.
- Settings.Load: when a write fails, the source leaves the store partly updated; the model returns only the error, and which failing name is reported depends on the dictionary order, a parameter here.
- Settings.Init: the defaults loop visits the names in the `order` parameter rather than in `settings_iter` order. This only changes which failing default would be reported, and no catalogue default fails (Settings.CatalogueInit).
- `__getattr__`, `__setattr__`, `__repr__`, `SettingsItem.to_dict` and `DEFAULT_SETTINGS_CONFIG` are not modelled. They are attribute plumbing and display.
- `prop.arg` and the `SlicerSettings(file_name=..., flat_settings_dict=...)` constructor used by the command-line scripts are not modelled, because the class does not define them.
- The command-line scripts, `setup.py` and the `ModelImporter` base class are not modelled.
- Buckets.BuildEdgeMap: edges are bucketed over the window that starts at index 0 at the lowest (Planes.Window), the corrected member of the finding below, rather than over `idx_start` as written. For a mesh inside its bounding box the two coincide in exact arithmetic (Slicer.SliceWindowsAsWritten). They differ only when `bottom` rounds above the lowest vertex, which is the finding.
- Stl.BinaryImport: contents shorter than the 84-byte header give a negative face count and row count. What `TopoModel` does with a negative shape is not part of this model.

## Findings

| source | as written | input that shows it | evidently intended | confidence | as-written member | corrected member |
|---|---|---|---|---|---|---|
| grslicer/slicer.py:42-46 | `idx_start` is padded down only when positive, so when `lo < bottom` it becomes negative and `positions[idx_start:idx_end]` counts the start from the end of the list. | In doubles, with `minZ = 0.1`, `maxZ = 0.9` and `layerHeight = 0.2`, the positions are about 0.3, 0.5 and 0.7, and `bottom = (0.1 + 0.2) - 0.2` rounds above `0.1`. An edge from `0.1` to `0.5` then gets `idx_start = -1` and `idx_end = 2`. Its window `positions[-1:2]` is empty and misses the crossing at 0.3. The real-valued counterpart is heights 1, 2, 3 with `lh = 1` and an edge from -0.5 to 1.5: its window is `[2, 2)`, which misses index 0. | The window starts at index 0 at the lowest, so no crossing is lost. | medium: the double rounding is worked by hand, not executed | Planes.WindowAsWrittenMissesBelowBottom | Planes.WindowComplete |
