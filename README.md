# SBOM pre-processing, modelled in Dafny

This project models `pre_process(data)` from the Zephyr west `sbom` command
(`scripts/west_commands/sbom/output_pre_process.py`). The function prepares
the scanned data for the output modules. It runs these passes, in order, on
one mutable `Data` record:

1. The files are sorted by path, in place. The sort is stable.
2. Each file gets a `license_expr`. Its raw license tokens are upper-cased
   and classified with the help of the SPDX expression parser into simple
   items, or-items and repeated identifiers. The or-items are parenthesised
   when needed, and the terms are joined with `" AND "` in sorted order.
3. The detectors of all files are collected into `data.detectors`.
4. A new license catalog `data.licenses` is built, file by file. An
   expression already catalogued is skipped. Any other expression gets its
   own `LicenseExpr` when it is invalid or not a bare identifier. Then every
   identifier the parser lists for it, bare expressions included, is
   catalogued unless already present. An SPDX identifier gets the
   registry's `License`. Otherwise it keeps the entry the old
   `data.licenses` had, else it gets the registry's license, else a blank
   `License` named after it.
5. The catalog keys are listed in `data.licenses_sorted` by the
   `lic_reorder` key. That key groups the entries as: the empty expression,
   custom expressions, custom licenses, `LicenseRef-` licenses, standard
   expressions, standard licenses.
6. The package keys are sorted into `data.packages_sorted`. The packages
   are numbered `SPDXRef-Package-n` in that order, and the files
   `SPDXRef-File-n` in file order. A missing `external_refs` becomes an
   empty list.
7. The package metadata gets friendlier values, in dictionary order:
   - a default version;
   - a name taken from a GitHub URL, the id or the URL;
   - on a name collision, both packages get their versions appended;
   - an `http` URL becomes the browser URL.
8. `data.relationships` is rebuilt:
   - the old relationships come first, minus the stale `DESCRIBES` and
     `CONTAINS` edges;
   - then one `DESCRIBES` edge from the document for each package that owns
     files, in sorted key order;
   - then one `CONTAINS` edge for each file of each package that has an
     identifier, grouped by package in first-file order.

## How the model is built

- `File`, `Package` and `Data` are classes. The passes update their fields
  in place.
- Fields that `pre_process` only reads are constants. These are the file's
  path, licenses, detectors and package key, the package's id and URL, and
  the packages dictionary with its order.
- `License`, `LicenseExpr`, `Relationship` and the catalog entries are
  datatypes.
- Each pass is a method with loops and invariants, matching the source's
  loops. Each method is proved against a function: `SortedByPath`,
  `LicenseExprOf`, `DetectorsOf`, `CatalogOf`, `LicensesSorted`,
  `PackagesSorted`, `PackageRef` with `RefsOrEmpty`, `FileRef`, `NamesOf`
  or `Rebuilt`.
- The properties the source promises are proved about those functions as
  lemmas.
- `PreProcess.PreProcess` runs them all and states the final state pass by
  pass:
  - `FilesPrepared`, `LicensesPrepared` and `IdsAssigned`;
  - `PackagesNamed` and `RelationshipsRebuilt`.
- `IdsStage`, `NamesStage`, `RelationshipsStage` and `FinishStage` have no
  counterpart in the source. They only split the final-state proof into
  smaller pieces, so that each piece stays cheap to verify.

The three license_utils collaborators (`get_spdx_license_expr_info`,
`is_spdx_license`, `get_license`) are the function-valued fields of a
`Collaborators` value passed to the passes. The `License()` object that
line 68 builds is its `blankLicense` field.

## Model

| member | source | states |
|---|---|---|
| PreProcess.PreProcess | scripts/west_commands/sbom/output_pre_process.py:14-162 | After all passes, the files, detectors, catalog, listing, numbering, package metadata and relationships are each what their pass's specification function gives, computed from the state the earlier passes left; `data.Valid()` still holds, so the function can run again |
| PreProcess.PrepareFiles | scripts/west_commands/sbom/output_pre_process.py:16-39 | The file list becomes the path-sorted list; each file's expression is the one computed from its own licenses; the detectors become the old ones united with every file's detectors |
| PreProcess.PrepareLicenses | scripts/west_commands/sbom/output_pre_process.py:40-91 | The catalog becomes the one built from the old catalog and the files' expressions in file order, and the listing is its keys in `lic_reorder` order |
| PreProcess.PrepareFilesAndLicenses | scripts/west_commands/sbom/output_pre_process.py:16-91 | The two passes in sequence: the catalog is built from the expressions the file pass assigned, and no package object is touched |
| PreProcess.AssignIds | scripts/west_commands/sbom/output_pre_process.py:92-105 | The sorted keys are exactly the package keys; the package at position i is `SPDXRef-Package-{i+1}`; every `external_refs` becomes its old list, or an empty one; the file at position j is `SPDXRef-File-{j+1}` |
| PreProcess.Finish | scripts/west_commands/sbom/output_pre_process.py:92-162 | Numbering, naming and the relationship rebuild in sequence: the naming pass keeps the identifiers, and the rebuild uses the final identifiers and leaves the package metadata as named |
| PreProcess.SortedFilesDistinct | scripts/west_commands/sbom/output_pre_process.py:17 | Sorting a list of distinct file objects yields distinct objects, all from the original list |
| FilePasses.SortFiles | scripts/west_commands/sbom/output_pre_process.py:17 | The new file list is the stable path sort of the old one |
| FilePasses.SortedByPathSpec | scripts/west_commands/sbom/output_pre_process.py:17 | The sorted list is a permutation of the files, ordered by path, and files sharing a path keep their relative order |
| FilePasses.SortedByPathPermutes | scripts/west_commands/sbom/output_pre_process.py:17 | Sorting by path keeps every file the same number of times |
| FilePasses.SortKeyed | scripts/west_commands/sbom/output_pre_process.py:17 | Sorting the files is sorting (path, file) pairs by path: each sorted file still carries its own path |
| FilePasses.CollectDetectors | scripts/west_commands/sbom/output_pre_process.py:37-39 | The detectors become the old set united with every file's detectors |
| FilePasses.DetectorsOfMembers | scripts/west_commands/sbom/output_pre_process.py:38-39 | A detector is collected if and only if some file names it |
| LicenseExpressions.BuildLicenseExprs | scripts/west_commands/sbom/output_pre_process.py:19-36 | Every file's `license_expr` is set to the expression computed from that file's own license list |
| LicenseExpressions.FileLicenseExpr | scripts/west_commands/sbom/output_pre_process.py:20-36 | The token loop, then the rendering, returns the file's expression as `LicenseExprOf` specifies it |
| LicenseExpressions.RenderItems | scripts/west_commands/sbom/output_pre_process.py:33-36 | The expression is the `" AND "` join of a strictly ascending list. That list holds exactly the simple items minus the repeated identifiers, plus the or-items, the latter parenthesised when there are several of them or when simple items remain |
| LicenseExpressions.ExprFromClassify | scripts/west_commands/sbom/output_pre_process.py:24-36 | Rendering happens once, on the sets the whole token loop accumulated |
| LicenseExpressions.ClassifyFromSets | scripts/west_commands/sbom/output_pre_process.py:24-32 | The loop's three sets are the upper-cased tokens that are or-items (invalid, or holding an OR), those that are not, and every identifier of every valid, non-bare token with more than one identifier |
| LicenseExpressions.LicenseExprOfTerms | scripts/west_commands/sbom/output_pre_process.py:20-36 | A file's expression is the `" AND "` join of exactly the described terms, in strictly increasing order; an empty list counts as `['']` |
| LicenseExpressions.LicenseExprOfSameMembers | scripts/west_commands/sbom/output_pre_process.py:20-36 | The expression depends only on which tokens the list holds, not on their order or repetition |
| LicenseExpressions.SingleToken | scripts/west_commands/sbom/output_pre_process.py:20-36 | A one-token list gives that token upper-cased. The exception is a valid compound token without OR that lists itself among its own identifiers, which is dropped as repeated |
| LicenseExpressions.NoLicensesEmptyExpr | scripts/west_commands/sbom/output_pre_process.py:20-36 | A file without licenses gets the empty expression `''`, whatever the parser reports |
| LicenseExpressions.SingleTokenTerms | scripts/west_commands/sbom/output_pre_process.py:20-36 | The terms of a one-token list: the token itself, or nothing when it repeats itself |
| LicenseCatalog.BuildCatalog | scripts/west_commands/sbom/output_pre_process.py:40-72 | `data.licenses` is replaced by the catalog built from the old catalog and the files' expressions in file order |
| LicenseCatalog.CatalogFile | scripts/west_commands/sbom/output_pre_process.py:43-71 | One file's step: skip a catalogued expression; otherwise add its `LicenseExpr` when it needs one, then resolve its identifiers |
| LicenseCatalog.AddConstituents | scripts/west_commands/sbom/output_pre_process.py:58-71 | The loop over an expression's identifiers returns the catalog the identifier fold specifies |
| LicenseCatalog.AddIdsSpec | scripts/west_commands/sbom/output_pre_process.py:58-71 | The identifier loop keeps every existing entry (first insertion wins); the new keys are exactly the identifiers not catalogued yet, each with its resolved entry |
| LicenseCatalog.CatalogStepSpec | scripts/west_commands/sbom/output_pre_process.py:43-71 | A file's step keeps every entry. An expression that needs its own entry has one afterwards. An expression not catalogued before gets all its identifiers catalogued. Every new entry comes from that expression |
| LicenseCatalog.MakeExpr | scripts/west_commands/sbom/output_pre_process.py:47-56 | The built `LicenseExpr` has the expression as id, the parser's validity and friendly form, and the parser's identifiers sorted. It is custom if and only if the expression is invalid or some identifier is not an SPDX one |
| LicenseCatalog.ExprCustom | scripts/west_commands/sbom/output_pre_process.py:52-56 | The early-exit loop computes exactly "invalid, or some identifier is not an SPDX one" |
| LicenseCatalog.CatalogEntries | scripts/west_commands/sbom/output_pre_process.py:41-72 | Every entry of the new catalog is either the `LicenseExpr` of a used expression that needs one, or the resolved entry of one of its identifiers; nothing else from the old catalog survives |
| LicenseCatalog.CatalogKeys | scripts/west_commands/sbom/output_pre_process.py:41-72 | The keys are exactly the expressions that need an entry plus their identifiers, when no expression used as an identifier lists other identifiers |
| LicenseCatalog.ExprEntry | scripts/west_commands/sbom/output_pre_process.py:43-57 | An expression that needs an entry has one, and unless it is also some expression's identifier that entry is its own `LicenseExpr` |
| LicenseCatalog.BareExprNotKey | scripts/west_commands/sbom/output_pre_process.py:41-72 | A valid bare expression gets no entry of its own: it is a key only when some expression's parse lists it among its identifiers |
| LicenseCatalog.ResolveId | scripts/west_commands/sbom/output_pre_process.py:61-71 | Computes an identifier's entry: the registry's license for an SPDX identifier, else the old entry, else the registry's license, else a blank license named after it. AddIdsSpec states that each new key gets this entry |
| LicenseCatalog.CatalogFromHasExprs | scripts/west_commands/sbom/output_pre_process.py:42-57 | Over the file loop, every expression that needs its own entry ends up in the catalog |
| LicenseCatalog.CatalogFromKeeps | scripts/west_commands/sbom/output_pre_process.py:42-71 | The file loop never removes a key |
| LicenseOrder.SortLicenses | scripts/west_commands/sbom/output_pre_process.py:91 | The listing becomes the catalog keys sorted by `lic_reorder` |
| LicenseOrder.LicensesSortedSpec | scripts/west_commands/sbom/output_pre_process.py:74-91 | The listing holds every catalog key exactly once, group by group in the six-group order, and by identifier within a group |
| LicenseOrder.ReorderKey | scripts/west_commands/sbom/output_pre_process.py:74-90 | Computes `lic_reorder`: a group letter, then the identifier, with `A` alone for the empty expression. ReorderKeyShape, ReorderKeyInjective and ReorderKeyOrder state its properties |
| LicenseOrder.ReorderKeyShape | scripts/west_commands/sbom/output_pre_process.py:74-90 | The key is `A` for the empty expression, else the entry's group letter followed by the identifier; for a license, the `LicenseRef-` prefix takes precedence over `custom` |
| LicenseOrder.ReorderKeyInjective | scripts/west_commands/sbom/output_pre_process.py:74-91 | Distinct catalog keys have distinct sort keys, so the sort has no ties |
| LicenseOrder.ReorderKeyOrder | scripts/west_commands/sbom/output_pre_process.py:74-91 | Comparing two sort keys is comparing the groups, then the identifiers |
| LicenseOrder.NoLicenseFirst | scripts/west_commands/sbom/output_pre_process.py:77-78 | The empty expression, when catalogued, is listed first |
| Numbering.SortPackages | scripts/west_commands/sbom/output_pre_process.py:93 | `packages_sorted` becomes the sorted key list |
| Numbering.PackagesSortedSpec | scripts/west_commands/sbom/output_pre_process.py:93 | The sorted keys are exactly the package keys, once each, in strictly increasing string order |
| Numbering.NumberPackages | scripts/west_commands/sbom/output_pre_process.py:95-101 | The package at position i of `packages_sorted` gets `SPDXRef-Package-{i+1}`, and every package's `external_refs` is its old list or an empty one |
| Numbering.RefsOrEmpty | scripts/west_commands/sbom/output_pre_process.py:100-101 | The references are always present afterwards, and a present list is kept |
| Numbering.NumberFiles | scripts/west_commands/sbom/output_pre_process.py:102-105 | The file at position j gets `SPDXRef-File-{j+1}` |
| Numbering.PackageRefInjective | scripts/west_commands/sbom/output_pre_process.py:98 | Two package identifiers are equal if and only if their counters are |
| Numbering.FileRefInjective | scripts/west_commands/sbom/output_pre_process.py:104 | Two file identifiers are equal if and only if their counters are |
| Numbering.PackageRefNotFileRef | scripts/west_commands/sbom/output_pre_process.py:98-104 | No package identifier equals a file identifier, so all assigned identifiers are distinct |
| Text.ParseNatToString | scripts/west_commands/sbom/output_pre_process.py:98-104 | Reading back the decimal form of the counter gives the counter |
| Text.Upper | scripts/west_commands/sbom/output_pre_process.py:25 | Computes `str.upper()` on ASCII letters, character by character. LicenseExpressions.SingleToken relies on it |
| Text.Find | scripts/west_commands/sbom/output_pre_process.py:114 | `str.find` gives the first position where the pattern occurs, and none exactly when it never occurs |
| PackageNames.NamePackages | scripts/west_commands/sbom/output_pre_process.py:107-128 | The loop over `data.packages.values()` leaves every package's name, version and browser URL as the naming fold over the dictionary order gives them |
| PackageNames.VisitPackage | scripts/west_commands/sbom/output_pre_process.py:109-128 | One loop iteration updates the package objects and `package_name_map` as one step of the naming fold says |
| PackageNames.InitialName | scripts/west_commands/sbom/output_pre_process.py:113-119 | Computes the name before renaming: the given name, else the GitHub path, else the id, else the URL, else `NoneName`. GiveName states that the method assigns it |
| PackageNames.GithubName | scripts/west_commands/sbom/output_pre_process.py:113-117 | Computes the URL tail after `github.com` and one more character, without `.git`. GithubNameOfPath states its value on a GitHub URL |
| PackageNames.GiveName | scripts/west_commands/sbom/output_pre_process.py:113-119 | A package with a URL keeps its name. Without one, it takes the GitHub path, else its id, else its URL, else `NoneName` |
| PackageNames.RecordName | scripts/west_commands/sbom/output_pre_process.py:120-128 | After a possible collision the package is mapped by its name and gets a browser URL from an `http` URL; no other package changes |
| PackageNames.RenameColliding | scripts/west_commands/sbom/output_pre_process.py:120-125 | On a taken name, the holder's entry is removed; the holder and the package both get `-version` appended; the holder is mapped under its new name |
| PackageNames.DefaultVersion | scripts/west_commands/sbom/output_pre_process.py:109-110 | Afterwards the version is present; a present version is kept and nothing else changes |
| PackageNames.Suffixed | scripts/west_commands/sbom/output_pre_process.py:123-124 | The renamed name starts with the old name |
| PackageNames.Browse | scripts/west_commands/sbom/output_pre_process.py:127-128 | Only the browser URL may change, and a present one is kept |
| PackageNames.Collide | scripts/west_commands/sbom/output_pre_process.py:120-125 | A collision keeps the set of packages, and the name map still names only packages |
| PackageNames.Record | scripts/west_commands/sbom/output_pre_process.py:126-128 | Recording keeps the set of packages, and the name map still names only packages |
| PackageNames.NameStep | scripts/west_commands/sbom/output_pre_process.py:109-128 | One iteration keeps the set of packages, and the name map still names only packages |
| PackageNames.NamesFrom | scripts/west_commands/sbom/output_pre_process.py:108-128 | The loop keeps the set of packages |
| PackageNames.CollideChanges | scripts/west_commands/sbom/output_pre_process.py:120-125 | A collision renames exactly the package and the holder of the name, each to its name plus `-version`, changes no other package, and leaves the map naming only packages it named before |
| PackageNames.RecordChanges | scripts/west_commands/sbom/output_pre_process.py:126-128 | Recording maps the package's name to it, sets only its browser URL and changes no other package |
| PackageNames.UrlStepChanges | scripts/west_commands/sbom/output_pre_process.py:111-128 | Visiting a package with a URL sets its version, name and browser URL, renames at most the one package holding the same name, and changes nothing else |
| PackageNames.NameStepProgress | scripts/west_commands/sbom/output_pre_process.py:108-128 | One iteration visits its package and keeps what was established for the packages before it |
| PackageNames.NamesFromProgress | scripts/west_commands/sbom/output_pre_process.py:108-128 | The loop visits every package in the order and touches no other |
| PackageNames.NamesOfSpec | scripts/west_commands/sbom/output_pre_process.py:107-128 | Every package ends with a version (`NoneVersion` if it had none) and keeps its id and URL. A package without a URL is otherwise untouched. A package with a URL ends with a name starting with the name it was given, and with a browser URL (its own, else an `http` URL) |
| PackageNames.NamesOfUnique | scripts/west_commands/sbom/output_pre_process.py:118-126 | When no two packages with a URL are given the same name, every package keeps the name it was given: no suffix is ever appended |
| PackageNames.GithubNameOfPath | scripts/west_commands/sbom/output_pre_process.py:113-117 | The name taken from `https://github.com/<path>` is the whole path, without a trailing `.git` |
| PackageNames.CollisionExample | scripts/west_commands/sbom/output_pre_process.py:120-128 | Two packages both named `zephyr` end up as `zephyr-1.0` and `zephyr-2.0` |
| PackageNames.NoUrlSameName | scripts/west_commands/sbom/output_pre_process.py:111-126 | A package without a URL never enters the name map. So a later package with a URL keeps the same name `zephyr`, and the two names stay equal |
| PackageNames.SecondCollision | scripts/west_commands/sbom/output_pre_process.py:120-126 | Packages named `x-2` (version 9), `x` (version 1) and `x` (version 2) end up named `x-2`, `x-1` and `x-2`: a renaming can reproduce a name another package holds |
| PackageNames.NoUrlExample | scripts/west_commands/sbom/output_pre_process.py:109-112 | A package without a URL gets `NoneVersion` and nothing else |
| Relationships.RebuildRelationships | scripts/west_commands/sbom/output_pre_process.py:136-162 | The new relationships are the kept old ones, then the `DESCRIBES` edges, then the `CONTAINS` edges, built from the final identifiers and the files' links |
| Relationships.GroupFiles | scripts/west_commands/sbom/output_pre_process.py:141-143 | `package_to_files` has a key for each package owning a file, in first-file order, holding its files' identifiers in file order |
| Relationships.AppendDescribes | scripts/west_commands/sbom/output_pre_process.py:145-152 | Appends one `DESCRIBES` edge from the document for each sorted package with an identifier and files |
| Relationships.AppendContaining | scripts/west_commands/sbom/output_pre_process.py:157-162 | Appends one `CONTAINS` edge from the package to each of the given file identifiers, in order |
| Relationships.AppendContains | scripts/west_commands/sbom/output_pre_process.py:153-162 | Appends the `CONTAINS` edges group by group, skipping a package that is missing or has no identifier |
| Relationships.ShouldKeep | scripts/west_commands/sbom/output_pre_process.py:130-135 | `_should_keep_relationship`: drops a `DESCRIBES` edge from the document and every `CONTAINS` edge. KeptMembers states what the filter keeps |
| Relationships.Kept | scripts/west_commands/sbom/output_pre_process.py:137 | The list comprehension over the old relationships with that filter. KeptMembers, KeptConcat and KeptIdempotent state its properties |
| Relationships.Base | scripts/west_commands/sbom/output_pre_process.py:136-139 | The filtered old list, or an empty one when the attribute is missing. RebuiltOthers states what it contributes |
| Relationships.KeptMembers | scripts/west_commands/sbom/output_pre_process.py:130-137 | The kept relationships are exactly the old ones that pass the filter; none is a `CONTAINS` edge or a `DESCRIBES` edge from the document |
| Relationships.KeptConcat | scripts/west_commands/sbom/output_pre_process.py:137 | Filtering keeps the original order: it works part by part |
| Relationships.KeptIdempotent | scripts/west_commands/sbom/output_pre_process.py:130-137 | Filtering twice is filtering once |
| Relationships.KeptAll | scripts/west_commands/sbom/output_pre_process.py:130-137 | A list whose relationships all pass the filter is kept whole |
| Relationships.GroupOrderMembers | scripts/west_commands/sbom/output_pre_process.py:141-144 | The keys of `package_to_files` are exactly the packages owning a file |
| Relationships.GroupOrderDistinct | scripts/west_commands/sbom/output_pre_process.py:141-143 | Each package is a key once |
| Relationships.GroupOrderFirst | scripts/west_commands/sbom/output_pre_process.py:141-143 | The keys come in the order of the packages' first files |
| Relationships.FilesOfMembers | scripts/west_commands/sbom/output_pre_process.py:142-143 | A package's list holds exactly the identifiers of its files |
| Relationships.DescribesMembers | scripts/west_commands/sbom/output_pre_process.py:145-152 | A `DESCRIBES` edge exists if and only if it points at a sorted package that has a non-empty identifier and files |
| Relationships.ContainsMembers | scripts/west_commands/sbom/output_pre_process.py:153-162 | A `CONTAINS` edge exists if and only if it links a grouped package with a non-empty identifier to one of its files |
| Relationships.ContainsCount | scripts/west_commands/sbom/output_pre_process.py:153-162 | There are as many `CONTAINS` edges as files whose package has an identifier. RebuiltFreshOnce adds that no such edge is repeated |
| Relationships.RebuiltContains | scripts/west_commands/sbom/output_pre_process.py:129-162 | The `CONTAINS` edges of the new list are exactly one from each identified package to each of its files; no stale one survives |
| Relationships.RebuiltDescribes | scripts/west_commands/sbom/output_pre_process.py:129-162 | The document's `DESCRIBES` edges of the new list are exactly the edges to the sorted packages with an identifier and files. RebuiltFreshOnce adds that each occurs once |
| Relationships.DescribesDistinct | scripts/west_commands/sbom/output_pre_process.py:145-152 | With distinct package identifiers, the `DESCRIBES` edges have no repeats |
| Relationships.FilesOfDistinct | scripts/west_commands/sbom/output_pre_process.py:141-143 | With distinct file identifiers, a package's file list has no repeats |
| Relationships.ContainsDistinct | scripts/west_commands/sbom/output_pre_process.py:153-162 | With distinct packages in `package_to_files` and distinct file identifiers, the `CONTAINS` edges have no repeats |
| Relationships.RebuiltFreshOnce | scripts/west_commands/sbom/output_pre_process.py:129-162 | With distinct package and file identifiers, every `DESCRIBES` edge from the document and every `CONTAINS` edge of the new list occurs exactly once |
| PreProcess.FreshEdgesOnce | scripts/west_commands/sbom/output_pre_process.py:95-162 | After numbering, the package and file identifiers are distinct. So every generated `DESCRIBES` and `CONTAINS` edge of the rebuilt list occurs exactly once |
| Relationships.RebuiltOthers | scripts/west_commands/sbom/output_pre_process.py:129-162 | Every other relationship of the new list is an old one that passes the filter, and every such old one is there |
| Sorting.SortBySpec | scripts/west_commands/sbom/output_pre_process.py:17 | Python's `sort` result is ordered by the key and is a permutation of the input |
| Sorting.SortByStable | scripts/west_commands/sbom/output_pre_process.py:17 | The sort is stable: elements with equal keys keep their relative order |
| Sorting.SortSetBySpec | scripts/west_commands/sbom/output_pre_process.py:91-93 | `sorted` of a key set with distinct sort keys holds each element once, in strictly increasing key order |
| StrOrder.LexLeTotal | scripts/west_commands/sbom/output_pre_process.py:91-93 | Python string comparison is total |
| StrOrder.LexLeTransitive | scripts/west_commands/sbom/output_pre_process.py:91-93 | Python string comparison is transitive |
| StrOrder.LexLeAntisymmetric | scripts/west_commands/sbom/output_pre_process.py:91-93 | Strings that compare both ways are equal |

## Left out

- The bodies of `get_spdx_license_expr_info`, `is_spdx_license` and `get_license` belong to license_utils, which is not part of this model. They are arbitrary functions in a `Collaborators` value.
- The collaborators are assumed `Coherent`: an identifier recognised as SPDX has a registry entry. Without this, line 62 would store `None` in the catalog and `lic_reorder` would fail on it.
- `data_structure` is not part of this model. Only the fields `pre_process` reads or writes are modelled. The defaults of `License()` are the `blankLicense` collaborator.
- Fields `pre_process` only reads are constants of the classes, so nothing else can change them while the passes run.
- `hasattr(data, 'relationships')` (line 136) is an `Option`: `None` stands for a missing attribute.
- `str.upper()` maps ASCII letters only. Unicode case mapping is not modelled.
- Python dictionary order is modelled only where the pass depends on it:
  - the packages' insertion order is the field `packageOrder`;
  - `package_to_files` keeps its first-file key order.
- The model requires what the scanner provides:
  - each file is a distinct object;
  - each package is stored under its own `id`, so no object sits under two keys;
  - `packageOrder` lists each key once.
- `package_name_map` holds package keys instead of package objects. This is equivalent because keys and objects correspond one to one.
- LicenseCatalog.CatalogKeys: the "exactly these keys" property is stated only when no expression that is also used as an identifier lists identifiers other than itself. Otherwise the `continue` at lines 43-44 can skip such an expression's identifiers, and the code gives no such promise. CatalogEntries, which states what every key is, has no such condition.
- Weak idempotence of a second run depends on what the parser reports. It is not promised by this code and is not stated. A second run can still be started: `PreProcess` keeps `data.Valid()`.
- Package names are not always unique after the naming pass, although renaming on collision suggests that intent. A package without a URL never enters `package_name_map` (lines 111-112). A renamed name can equal one another package already holds (lines 123-126). NoUrlSameName and SecondCollision exhibit both cases. Uniqueness is therefore stated only under a condition, in NamesOfUnique.
- A file's `license_expr` is not always a non-empty key of `data.licenses`. A file without licenses gets `''` (NoLicensesEmptyExpr). A valid bare expression is a key only when the parser lists it among its own identifiers (BareExprNotKey). A key for every expression is therefore not stated.
- Reading the scanned data and rendering the SPDX document are I/O outside `pre_process`.
