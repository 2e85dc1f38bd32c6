/** Conversions between the catalog's GraphQL types and the installer's own
    types, and the choice of the release from a catalog reply
    (lib/src/live_api/mod.rs). The HTTP request itself is not modelled: the
    decoded reply is an input. */
module LiveApi {
  import opened Wrappers
  import opened Catalog
  import opened EditorsInfo

  /** `From<UnityReleaseModuleCategory> for String`. */
  function CategoryName(c: ModuleCategory): (s: string)
    ensures c.OtherCategory? <==> s == ""
  {
    match c
    case DOCUMENTATION => "Documentation"
    case PLATFORM => "Platforms"
    case LANGUAGE_PACK => "Language packs (Preview)"
    case DEV_TOOL => "Dev tools"
    case PLUGIN => "Plugins"
    case COMPONENT => "Components"
    case OtherCategory(_) => ""
  }

  /** Distinct known categories get distinct display names, so the name
      identifies the category. */
  lemma CategoryNamesDistinct(a: ModuleCategory, b: ModuleCategory)
    requires !a.OtherCategory? && !b.OtherCategory?
    ensures CategoryName(a) == CategoryName(b) <==> a == b
  {
  }

  /** `From<SystemArch> for UnityReleaseDownloadArchitecture`. */
  function ToApiArch(a: SystemArch): (r: DownloadArchitecture)
    ensures !r.OtherArchitecture?
  {
    match a
    case X86_64 => API_X86_64
    case ARM64 => API_ARM64
  }

  /** `From<UnityReleaseDownloadArchitecture> for SystemArch`: an
      architecture the installer does not know reads as x86_64. */
  function FromApiArch(a: DownloadArchitecture): (r: SystemArch)
    ensures r == ARM64 <==> a == API_ARM64
  {
    match a
    case API_X86_64 => X86_64
    case API_ARM64 => ARM64
    case OtherArchitecture(_) => X86_64
  }

  /** Sending an architecture to the catalog and reading it back is the
      identity. */
  lemma ApiArchRoundTrip(a: SystemArch)
    ensures FromApiArch(ToApiArch(a)) == a
  {
  }

  datatype Platform = MAC_OS | LINUX | WINDOWS

  /** The variables of the release-info query. */
  datatype ReleaseQuery = ReleaseQuery(version: string, limit: nat, platforms: seq<Platform>,
                                       architectures: seq<DownloadArchitecture>)

  /** The query `get_version_info` sends: the exact version, one result, the
      platform, and the requested architectures in order. */
  function VersionQuery(version: string, platform: Platform, archs: seq<SystemArch>): (q: ReleaseQuery)
    ensures q.limit == 1 && q.version == version && q.platforms == [platform]
    ensures |q.architectures| == |archs|
    ensures forall i :: 0 <= i < |archs| ==> FromApiArch(q.architectures[i]) == archs[i]
  {
    ReleaseQuery(version, 1, [platform], seq(|archs|, i requires 0 <= i < |archs| => ToApiArch(archs[i])))
  }

  /** A decoded reply: `data` is absent when the server answered with errors
      only; otherwise it lists the matching releases (the edges). */
  datatype ReleaseReply = ReleaseReply(data: Option<seq<Release>>)

  /** `get_version_info` after the request: the first edge's release, none
      when there are no edges, an error when the reply has no data. A failed
      request (`reply` an error) propagates. */
  function GetVersionInfo(reply: Result<ReleaseReply>): (r: Result<Option<Release>>)
    ensures reply.Ok? && reply.value.data.None? ==> r == Err("Couldn't retrieve version info")
    ensures reply.Ok? && reply.value.data.Some? ==> r.Ok?
    ensures r.Ok? && r.value.Some? ==>
              reply.Ok? && reply.value.data.Some? &&
              |reply.value.data.value| > 0 && r.value.value == reply.value.data.value[0]
    ensures r.Ok? && r.value.None? ==> reply.Ok? && reply.value.data == Some([])
    ensures !reply.Ok? ==> r.IsFailure()
  {
    if reply.IsFailure() then reply.PropagateFailure()
    else match reply.value.data
      case None => Err("Couldn't retrieve version info")
      case Some(edges) => if |edges| == 0 then Ok(None) else Ok(Some(edges[0]))
  }
}
