/**
 * `pre_process(data)`: the passes that prepare the scanned data for the
 * output modules, run in order on the same `Data` object.
 */
module PreProcess {
  import opened Optional
  import opened Text
  import opened Sorting
  import opened SbomData
  import opened LicenseExpressions
  import opened FilePasses
  import opened LicenseCatalog
  import opened LicenseOrder
  import opened Numbering
  import opened PackageNames
  import opened Relationships

  /** Sorting keeps each file object once. */
  lemma SortedFilesDistinct(files: seq<File>)
    requires Distinct(files)
    ensures Distinct(SortedByPath(files))
    ensures forall f :: f in SortedByPath(files) ==> f in files
  {
    SortedByPathPermutes(files);
    DistinctPermutation(files, SortedByPath(files));
    forall f | f in SortedByPath(files) ensures f in files {
      assert f in multiset(SortedByPath(files));
    }
  }

  /** The sorted package keys meet what the numbering pass needs. */
  lemma SortedKeysDistinct(packages: map<string, Package>)
    ensures forall k :: k in PackagesSorted(packages) <==> k in packages
    ensures Distinct(PackagesSorted(packages))
  {
    PackagesSortedSpec(packages);
  }

  /** Lines 16-39: sorts the files, gives each its license expression and collects the detectors. */
  method PrepareFiles(data: Data, c: Collaborators)
    requires data.Valid()
    modifies data`files, data`detectors, data.files`licenseExpr
    ensures data.files == old(SortedByPath(data.files)) && data.Valid()
    ensures forall i :: 0 <= i < |data.files| ==> data.files[i] in old(data.files)
    ensures forall i :: 0 <= i < |data.files| ==> data.files[i].licenseExpr == LicenseExprOf(c, data.files[i].licenses)
    ensures data.detectors == old(data.detectors) + DetectorsOf(data.files)
  {
    NoRepeatsPairwise(data.files);
    SortedFilesDistinct(data.files);
    SortFiles(data);
    var files := data.files;
    NoRepeatsPairwise(files);
    assert forall i :: 0 <= i < |files| ==> files[i] in old(data.files);
    assert Scanned(files, data.packages, data.packageOrder);
    BuildLicenseExprs(data, c);
    CollectDetectors(data);
  }

  /** Lines 40-91: builds the license catalog and lists its keys. */
  method PrepareLicenses(data: Data, c: Collaborators)
    requires c.Coherent()
    modifies data`licenses, data`licensesSorted
    ensures data.licenses == CatalogOf(c, old(data.licenses), LicenseExprsOf(data.files))
    ensures data.licensesSorted == LicensesSorted(data.licenses)
  {
    BuildCatalog(data, c);
    SortLicenses(data);
  }

  /** Lines 16-39: the files in path order, each with its expression, and the detectors collected. */
  ghost predicate FilesPrepared(c: Collaborators, files0: seq<File>, files: seq<File>, exprs: seq<string>,
    detectors0: set<string>, detectors: set<string>)
  {
    && files == SortedByPath(files0)
    && |exprs| == |files|
    && (forall i :: 0 <= i < |files| ==> exprs[i] == LicenseExprOf(c, files[i].licenses))
    && detectors == detectors0 + DetectorsOf(files)
  }

  /** Lines 40-91: the catalog built from the expressions, and its listing. */
  ghost predicate LicensesPrepared(c: Collaborators, exprs: seq<string>, licenses0: Catalog, licenses: Catalog,
    licensesSorted: seq<string>)
  {
    && c.Coherent()
    && licenses == CatalogOf(c, licenses0, exprs)
    && licensesSorted == LicensesSorted(licenses)
  }

  /** Lines 92-105: the sorted keys, and the package and file identifiers. */
  ghost predicate IdsAssigned(packages: map<string, Package>, sorted: seq<string>, ids: map<string, string>,
    refs0: map<string, Option<seq<string>>>, refs: map<string, Option<seq<string>>>, links: seq<Link>)
  {
    && sorted == PackagesSorted(packages)
    && (forall k :: k in sorted <==> k in packages)
    && (forall i :: 0 <= i < |sorted| ==> sorted[i] in ids && ids[sorted[i]] == PackageRef(i + 1))
    && (forall k :: k in refs0 ==> k in refs && refs[k] == RefsOrEmpty(refs0[k]))
    && (forall j :: 0 <= j < |links| ==> links[j].1 == FileRef(j + 1))
  }

  /** Lines 92-105: sorts the package keys and numbers the packages and the files. */
  method AssignIds(data: Data)
    requires data.Valid()
    modifies data`packagesSorted, data.packageObjects`spdxId, data.packageObjects`externalRefs, data.files`spdxId
    ensures data.Valid()
    ensures IdsAssigned(data.packages, data.packagesSorted, SpdxIds(data), old(RefsOf(data)),
      RefsOf(data), LinksOf(data))
  {
    label start:
    SortPackages(data);
    IdsKept@start(data);
    SortedKeysDistinct(data.packages);
    NumberPackages(data);
    label numbered:
    NumberFiles(data);
    IdsKept@numbered(data);
    FileLinksSpec(data.files);
  }

  /** Lines 106-128: the package metadata after the naming pass. */
  ghost predicate PackagesNamed(order: seq<string>, names0: Infos, names: Infos)
  {
    && (forall k :: k in order ==> k in names0)
    && names == NamesOf(order, names0)
  }

  /** Lines 129-162: the relationships after the rebuild. */
  ghost predicate RelationshipsRebuilt(rels0: Option<seq<Relationship>>, sorted: seq<string>, ids: map<string, string>,
    links: seq<Link>, rels: Option<seq<Relationship>>)
  {
    && (forall k :: k in sorted ==> k in ids)
    && rels == Some(Rebuilt(rels0, sorted, ids, links))
  }

  /**
   * After the numbering, every edge the rebuild generates occurs once: the
   * sorted packages get distinct `SPDXRef-Package-n` identifiers and the
   * files distinct `SPDXRef-File-n` identifiers.
   */
  lemma FreshEdgesOnce(packages: map<string, Package>, sorted: seq<string>, ids: map<string, string>,
    refs0: map<string, Option<seq<string>>>, refs: map<string, Option<seq<string>>>, links: seq<Link>,
    rels0: Option<seq<Relationship>>)
    requires IdsAssigned(packages, sorted, ids, refs0, refs, links)
    ensures forall k :: k in sorted ==> k in ids
    ensures var r := Rebuilt(rels0, sorted, ids, links);
      forall i, j :: 0 <= i < j < |r| && !ShouldKeep(r[i]) ==> r[i] != r[j]
  {
    forall i, j | 0 <= i < j < |sorted| ensures ids[sorted[i]] != ids[sorted[j]] {
      PackageRefInjective(i + 1, j + 1);
    }
    forall i, j | 0 <= i < j < |links| ensures links[i].1 != links[j].1 {
      FileRefInjective(i + 1, j + 1);
    }
    RebuiltFreshOnce(rels0, sorted, ids, links);
  }

  /** Lines 16-91: the file passes, then the license catalog and its listing. */
  method PrepareFilesAndLicenses(data: Data, c: Collaborators)
    requires data.Valid() && c.Coherent()
    modifies data`files, data`detectors, data.files`licenseExpr, data`licenses, data`licensesSorted
    ensures data.Valid() && forall i :: 0 <= i < |data.files| ==> data.files[i] in old(data.files)
    ensures FilesPrepared(c, old(data.files), data.files, LicenseExprsOf(data.files), old(data.detectors), data.detectors)
    ensures LicensesPrepared(c, LicenseExprsOf(data.files), old(data.licenses), data.licenses, data.licensesSorted)
    ensures unchanged(data.packageObjects)
  {
    PrepareFiles(data, c);
    PrepareLicenses(data, c);
    LicenseExprsOfSpec(data.files);
  }

  /** `AssignIds`, which leaves the package metadata alone. */
  method IdsStage(data: Data)
    requires data.Valid()
    modifies data`packagesSorted, data.packageObjects`spdxId, data.packageObjects`externalRefs, data.files`spdxId
    ensures data.Valid()
    ensures IdsAssigned(data.packages, data.packagesSorted, SpdxIds(data), old(RefsOf(data)),
      RefsOf(data), LinksOf(data))
    ensures View(data) == old(View(data))
  {
    label before:
    AssignIds(data);
    ViewKept@before(data);
  }

  /** `NamePackages`, which leaves the identifiers alone. */
  method NamesStage(data: Data, ghost refs0: map<string, Option<seq<string>>>)
    requires data.PackagesIndexed()
    requires IdsAssigned(data.packages, data.packagesSorted, SpdxIds(data), refs0, RefsOf(data), LinksOf(data))
    modifies data.packageObjects`name, data.packageObjects`version, data.packageObjects`browserUrl
    ensures IdsAssigned(data.packages, data.packagesSorted, SpdxIds(data), refs0, RefsOf(data), LinksOf(data))
    ensures PackagesNamed(data.packageOrder, old(View(data)), View(data))
  {
    label before:
    NamePackages(data);
    IdsKept@before(data);
    LinksKept@before(data);
  }

  /** `RebuildRelationships`, which leaves the identifiers and the package metadata alone. */
  method RelationshipsStage(data: Data, ghost refs0: map<string, Option<seq<string>>>, ghost names0: Infos)
    requires data.PackagesHeld()
    requires IdsAssigned(data.packages, data.packagesSorted, SpdxIds(data), refs0, RefsOf(data), LinksOf(data))
    requires PackagesNamed(data.packageOrder, names0, View(data))
    modifies data`relationships
    ensures IdsAssigned(data.packages, data.packagesSorted, SpdxIds(data), refs0, RefsOf(data), LinksOf(data))
    ensures PackagesNamed(data.packageOrder, names0, View(data))
    ensures RelationshipsRebuilt(old(data.relationships), data.packagesSorted, SpdxIds(data),
      LinksOf(data), data.relationships)
  {
    label before:
    RebuildRelationships(data);
    IdsKept@before(data);
    LinksKept@before(data);
    ViewKept@before(data);
  }

  /** Lines 92-162: identifiers, package metadata and relationships. */
  method Finish(data: Data)
    requires data.Valid()
    modifies data`packagesSorted, data`relationships, data.files`spdxId
    modifies data.packageObjects`spdxId, data.packageObjects`externalRefs
    modifies data.packageObjects`name, data.packageObjects`version, data.packageObjects`browserUrl
    ensures data.Valid()
    ensures IdsAssigned(data.packages, data.packagesSorted, SpdxIds(data), old(RefsOf(data)),
      RefsOf(data), LinksOf(data))
    ensures PackagesNamed(data.packageOrder, old(View(data)), View(data))
    ensures RelationshipsRebuilt(old(data.relationships), data.packagesSorted, SpdxIds(data),
      LinksOf(data), data.relationships)
  {
    ghost var refs0, names0 := RefsOf(data), View(data);
    IdsStage(data);
    NamesStage(data, refs0);
    RelationshipsStage(data, refs0, names0);
  }

  /** `Finish`, which leaves the file list, the detectors, the catalog and the files' expressions alone. */
  method FinishStage(data: Data)
    requires data.Valid()
    modifies data`packagesSorted, data`relationships, data.files`spdxId
    modifies data.packageObjects`spdxId, data.packageObjects`externalRefs
    modifies data.packageObjects`name, data.packageObjects`version, data.packageObjects`browserUrl
    ensures data.Valid()
    ensures data.files == old(data.files) && data.detectors == old(data.detectors)
    ensures data.licenses == old(data.licenses) && data.licensesSorted == old(data.licensesSorted)
    ensures LicenseExprsOf(data.files) == old(LicenseExprsOf(data.files))
    ensures IdsAssigned(data.packages, data.packagesSorted, SpdxIds(data), old(RefsOf(data)),
      RefsOf(data), LinksOf(data))
    ensures PackagesNamed(data.packageOrder, old(View(data)), View(data))
    ensures RelationshipsRebuilt(old(data.relationships), data.packagesSorted, SpdxIds(data),
      LinksOf(data), data.relationships)
  {
    label before:
    Finish(data);
    ExprsKept@before(data.files);
  }

  /**
   * Runs the passes in the order of `pre_process`: sort the files, give
   * each file its license expression, collect the detectors, build and sort
   * the license catalog, sort and number the packages and files, give the
   * packages friendlier metadata, and rebuild the relationships.
   */
  method PreProcess(data: Data, c: Collaborators)
    requires data.Valid() && c.Coherent()
    modifies data, data.files, data.packageObjects
    ensures data.Valid()
    ensures FilesPrepared(c, old(data.files), data.files, LicenseExprsOf(data.files), old(data.detectors), data.detectors)
    ensures LicensesPrepared(c, LicenseExprsOf(data.files), old(data.licenses), data.licenses, data.licensesSorted)
    ensures IdsAssigned(data.packages, data.packagesSorted, SpdxIds(data), old(RefsOf(data)),
      RefsOf(data), LinksOf(data))
    ensures PackagesNamed(data.packageOrder, old(View(data)), View(data))
    ensures RelationshipsRebuilt(old(data.relationships), data.packagesSorted, SpdxIds(data),
      LinksOf(data), data.relationships)
  {
    label before:
    PrepareFilesAndLicenses(data, c);
    IdsKept@before(data);
    ViewKept@before(data);
    FinishStage(data);
  }
}
