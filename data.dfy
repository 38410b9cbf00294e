/**
 * The in-memory records that the SBOM pre-processing pass reads and writes:
 * the fields of `Data`, `File`, `Package`, `License`, `LicenseExpr` and
 * `Relationship` that `pre_process` touches, and the three license_utils
 * collaborators it calls.
 */
module SbomData {
  import opened Optional
  import opened Text

  /** What `get_spdx_license_expr_info` reports about one license-expression string. */
  datatype ExprInfo = ExprInfo(
    valid: bool,          // parses as an SPDX license expression
    isIdOnly: bool,       // is a single bare identifier
    orPresent: bool,      // contains an OR
    licenses: seq<string>, // the identifiers it is made of
    friendlyExpr: string)

  /** A license identifier with its metadata (`License`, whose `is_expr` is false). */
  datatype License = License(id: string, friendlyId: string, custom: bool)

  /** A compound or unparsable expression (`LicenseExpr`, whose `is_expr` is true). */
  datatype LicenseExpr = LicenseExpr(
    id: string,
    friendlyId: string,
    valid: bool,
    licenses: seq<string>,
    custom: bool)

  /** A value of the `data.licenses` dictionary. */
  datatype CatalogEntry = Lic(license: License) | Expr(expr: LicenseExpr)
  {
    /** `lic.is_expr`. */
    predicate IsExpr()
    {
      Expr?
    }

    /** `lic.custom`. */
    predicate Custom()
    {
      if Expr? then expr.custom else license.custom
    }
  }

  /** One SPDX relationship: `spdx_id`, `relationship_type`, `related_spdx_id`. */
  datatype Relationship = Relationship(spdxId: string, relationshipType: string, relatedSpdxId: string)

  /**
   * The collaborators imported from license_utils, given as values:
   * `get_spdx_license_expr_info`, `is_spdx_license` and `get_license`, and
   * the object that `License()` builds before its id is filled in.
   */
  datatype Collaborators = Collaborators(
    exprInfo: string -> ExprInfo,
    isSpdxLicense: string -> bool,
    getLicense: string -> Option<License>,
    blankLicense: License)
  {
    /** The registry has an entry for every identifier it recognises as SPDX. */
    ghost predicate Coherent()
    {
      forall id :: isSpdxLicense(id) ==> getLicense(id).Some?
    }
  }

  /**
   * One scanned file. The scanner's fields, which `pre_process` only reads,
   * are constants; the two it fills in are variables.
   */
  class File {
    const filePath: string
    const licenses: seq<string>
    const detectors: set<string>
    const package: string
    var licenseExpr: string
    var spdxId: string

    constructor (filePath: string, licenses: seq<string>, detectors: set<string>, package: string)
      ensures this.filePath == filePath && this.licenses == licenses
      ensures this.detectors == detectors && this.package == package
      ensures licenseExpr == "" && spdxId == ""
    {
      this.filePath := filePath;
      this.licenses := licenses;
      this.detectors := detectors;
      this.package := package;
      licenseExpr := "";
      spdxId := "";
    }
  }

  /**
   * One package; `None` stands for Python's `None`. The key and the URL,
   * which `pre_process` only reads, are constants.
   */
  class Package {
    const id: string
    var name: Option<string>
    var version: Option<string>
    const url: Option<string>
    var browserUrl: Option<string>
    var externalRefs: Option<seq<string>>
    var spdxId: string

    constructor (id: string, name: Option<string>, version: Option<string>, url: Option<string>)
      ensures this.id == id && this.name == name && this.version == version && this.url == url
      ensures browserUrl == None && externalRefs == None && spdxId == ""
    {
      this.id := id;
      this.name := name;
      this.version := version;
      this.url := url;
      browserUrl := None;
      externalRefs := None;
      spdxId := "";
    }
  }

  /**
   * The aggregate record. `packageOrder` is the insertion order of the
   * `packages` dictionary, which `pre_process` iterates.
   */
  class Data {
    var files: seq<File>
    const packages: map<string, Package>
    /** The package objects of `packages`, the objects the passes update. */
    ghost const packageObjects: set<Package>
    const packageOrder: seq<string>
    var licenses: map<string, CatalogEntry>
    var licensesSorted: seq<string>
    var packagesSorted: seq<string>
    var detectors: set<string>
    var relationships: Option<seq<Relationship>>

    /** The scanned files and packages, before any pass has run. */
    constructor (files: seq<File>, packages: map<string, Package>, packageOrder: seq<string>)
      ensures this.files == files && this.packages == packages && this.packageOrder == packageOrder
      ensures packageObjects == packages.Values
      ensures licenses == map[] && licensesSorted == [] && packagesSorted == []
      ensures detectors == {} && relationships == None
      ensures Scanned(files, packages, packageOrder) ==> Valid()
    {
      this.files := files;
      this.packages := packages;
      packageObjects := packages.Values;
      this.packageOrder := packageOrder;
      licenses := map[];
      licensesSorted := [];
      packagesSorted := [];
      detectors := {};
      relationships := None;
    }

    /**
     * What the scanner guarantees: each file is its own object, and the
     * packages are indexed as `PackagesIndexed` says.
     */
    ghost predicate Valid()
      reads this`files
    {
      Scanned(files, packages, packageOrder) && PackagesHeld()
    }

    /** The part of `Valid` about the packages, which no pass changes. */
    ghost predicate PackagesIndexed()
    {
      Indexed(packages, packageOrder) && PackagesHeld()
    }

    /** Every package of the dictionary is one of `packageObjects`. */
    ghost predicate PackagesHeld()
    {
      forall k :: k in packages ==> packages[k] in packageObjects
    }
  }

  /** The shape `Data.Valid` asks of the files, the packages and their order. */
  ghost predicate Scanned(files: seq<File>, packages: map<string, Package>, packageOrder: seq<string>)
  {
    FilesDistinct(files) && Indexed(packages, packageOrder)
  }

  /** No file object occurs twice in the list. */
  ghost predicate FilesDistinct(files: seq<File>)
  {
    NoRepeats(files)
  }

  /**
   * No element occurs twice: the head is not in the tail, and so on down the
   * list. This recursive form of `Distinct` keeps `Data.Valid` free of
   * quantifiers.
   */
  ghost predicate NoRepeats<T>(s: seq<T>)
  {
    s == [] || (s[0] !in s[1..] && NoRepeats(s[1..]))
  }

  /** `NoRepeats` is pairwise distinctness. */
  lemma {:induction false} NoRepeatsPairwise<T>(s: seq<T>)
    ensures NoRepeats(s) <==> Distinct(s)
  {
    if s != [] {
      NoRepeatsPairwise(s[1..]);
      if Distinct(s) {
        assert forall i, j :: 0 <= i < j < |s[1..]| ==> s[1..][i] == s[i + 1] && s[1..][j] == s[j + 1];
        forall j | 0 <= j < |s[1..]| ensures s[1..][j] != s[0] {
          assert s[1..][j] == s[j + 1];
        }
      }
      if NoRepeats(s) {
        forall i, j | 0 <= i < j < |s| ensures s[i] != s[j] {
          if i == 0 {
            assert s[j] == s[1..][j - 1];
          } else {
            assert s[i] == s[1..][i - 1] && s[j] == s[1..][j - 1];
          }
        }
      }
    }
  }

  /**
   * Each package is stored under its own `id` (so no package object sits
   * under two keys), and `packageOrder` (the order of the dict) lists the
   * keys once each.
   */
  ghost predicate Indexed(packages: map<string, Package>, packageOrder: seq<string>)
  {
    && (forall k :: k in packages ==> packages[k].id == k)
    && NoRepeats(packageOrder)
    && (forall k :: k in packages <==> k in packageOrder)
  }

  /** The `license_expr` of each file, in file order. */
  function LicenseExprsOf(files: seq<File>): seq<string>
    reads files`licenseExpr
  {
    if files == [] then [] else LicenseExprsOf(files[..|files| - 1]) + [files[|files| - 1].licenseExpr]
  }

  /** The expressions line up with the files. */
  lemma {:induction false} LicenseExprsOfSpec(files: seq<File>)
    ensures |LicenseExprsOf(files)| == |files|
    ensures forall i :: 0 <= i < |files| ==> LicenseExprsOf(files)[i] == files[i].licenseExpr
  {
    if files != [] {
      LicenseExprsOfSpec(files[..|files| - 1]);
    }
  }

  // What the passes observe of the objects, as values.

  /** The fields of a package that the naming pass reads or writes. */
  datatype PInfo = PInfo(
    id: string,
    name: Option<string>,
    version: Option<string>,
    url: Option<string>,
    browserUrl: Option<string>)

  /** The packages, by key. */
  type Infos = map<string, PInfo>

  /** The fields of one package object that the naming pass reads or writes. */
  function Snap(p: Package): PInfo
    reads p`name, p`version, p`browserUrl
  {
    PInfo(p.id, p.name, p.version, p.url, p.browserUrl)
  }

  /** The fields of every package object, by key. */
  function View(data: Data): Infos
    requires data.PackagesHeld()
    reads data.packageObjects`name, data.packageObjects`version, data.packageObjects`browserUrl
  {
    map k | k in data.packages :: Snap(data.packages[k])
  }

  /** What the relationships pass reads of one file: its package key and its SPDX identifier. */
  type Link = (string, string)

  /** The links of the files, in file order. */
  function FileLinks(files: seq<File>): seq<Link>
    reads files`spdxId
  {
    if files == [] then [] else FileLinks(files[..|files| - 1]) + [(files[|files| - 1].package, files[|files| - 1].spdxId)]
  }

  /** The links line up with the files. */
  lemma {:induction false} FileLinksSpec(files: seq<File>)
    ensures |FileLinks(files)| == |files|
    ensures forall i :: 0 <= i < |files| ==> FileLinks(files)[i] == (files[i].package, files[i].spdxId)
  {
    if files != [] {
      FileLinksSpec(files[..|files| - 1]);
    }
  }

  /** The links of `data.files`. */
  function LinksOf(data: Data): seq<Link>
    reads data`files, data.files`spdxId
  {
    FileLinks(data.files)
  }

  /** The SPDX identifier of every package, by key. */
  function SpdxIds(data: Data): map<string, string>
    requires data.PackagesHeld()
    reads data.packageObjects`spdxId
  {
    map k | k in data.packages :: data.packages[k].spdxId
  }

  /** The `external_refs` of every package, by key. */
  function RefsOf(data: Data): map<string, Option<seq<string>>>
    requires data.PackagesHeld()
    reads data.packageObjects`externalRefs
  {
    map k | k in data.packages :: data.packages[k].externalRefs
  }

  // What a pass that leaves some fields alone leaves alone of the views above.

  /** The naming fields of the packages are as they were, so their view is. */
  twostate lemma ViewKept(data: Data)
    requires data.PackagesHeld()
    requires unchanged(data.packageObjects`name, data.packageObjects`version, data.packageObjects`browserUrl)
    ensures View(data) == old(View(data))
  {
  }

  /** The packages' identifiers and references are as they were, so their maps are. */
  twostate lemma IdsKept(data: Data)
    requires data.PackagesHeld()
    requires unchanged(data.packageObjects`spdxId, data.packageObjects`externalRefs)
    ensures SpdxIds(data) == old(SpdxIds(data)) && RefsOf(data) == old(RefsOf(data))
  {
  }

  /** The file list and the files' identifiers are as they were, so the links are. */
  twostate lemma LinksKept(data: Data)
    requires unchanged(data`files) && unchanged(data.files`spdxId)
    ensures LinksOf(data) == old(LinksOf(data))
  {
  }

  /** The files' expressions are as they were, so their list is. */
  twostate lemma ExprsKept(files: seq<File>)
    requires unchanged(files`licenseExpr)
    ensures LicenseExprsOf(files) == old(LicenseExprsOf(files))
  {
  }
}
