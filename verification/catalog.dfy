/** The release catalog's data as the GraphQL client hands it over
    (the generated `release_info` types). The schema files themselves are not
    part of this model; only the fields the installer reads are kept. */
module Catalog {
  import opened Wrappers

  /** Archive format declared by the catalog (`FileType`). */
  datatype FileType =
    | TEXT | TAR_GZ | TAR_XZ | ZIP | PKG | EXE | PO | DMG | LZMA | LZ4 | MD | PDF
    | OtherType(name: string)

  datatype ModuleCategory =
    | DOCUMENTATION | PLATFORM | LANGUAGE_PACK | DEV_TOOL | PLUGIN | COMPONENT
    | OtherCategory(name: string)

  datatype DownloadArchitecture = API_X86_64 | API_ARM64 | OtherArchitecture(name: string)

  datatype DigitalUnit = BYTE | KILOBYTE | MEGABYTE | GIGABYTE | OtherUnit(name: string)

  /** A size as the catalog states it: a whole number and its unit. */
  datatype DownloadSize = DownloadSize(value: nat, unit: DigitalUnit)

  datatype PathRename = PathRename(from: string, to: string)

  datatype Eula = Eula(url: string, labelText: string, message: string)

  /** One downloadable module of a release. */
  datatype ModuleDownload = ModuleDownload(
    url: string,
    integrity: Option<string>,
    fileType: FileType,
    id: string,
    name: string,
    slug: string,
    description: string,
    category: ModuleCategory,
    downloadSize: DownloadSize,
    installedSize: DownloadSize,
    required: bool,
    hidden: bool,
    extractedPathRename: Option<PathRename>,
    preSelected: bool,
    destination: Option<string>,
    eula: Option<seq<Eula>>)

  /** A node of the catalog's module tree: a module and its sub-modules. */
  datatype ApiModule = ApiModule(download: ModuleDownload, subModules: Option<seq<ApiModule>>)

  /** One editor download of a release, for one architecture. */
  datatype ReleaseDownload = ReleaseDownload(
    url: string,
    fileType: FileType,
    architecture: DownloadArchitecture,
    downloadSize: DownloadSize,
    installedSize: DownloadSize,
    modules: seq<ApiModule>)

  datatype Release = Release(version: string, downloads: seq<ReleaseDownload>)
}
