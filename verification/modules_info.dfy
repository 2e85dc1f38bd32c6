/** Module records and the flattening of the catalog's module tree into
    them (lib/src/modules/info.rs). Sizes are whole numbers of bytes. */
module ModulesInfo {
  import opened Wrappers
  import opened Catalog
  import LiveApi

  /** `SizeUnitType`: a size still in catalog units, or a number of bytes. */
  datatype SizeUnitType = UnitSize(size: DownloadSize) | Value(bytes: nat)

  const KIB: nat := 1024

  /** The message of the `unimplemented!()` panic of info.rs:31. */
  const NotImplemented := "not implemented"

  predicate KnownUnit(u: DigitalUnit)
  {
    u.BYTE? || u.KILOBYTE? || u.MEGABYTE? || u.GIGABYTE?
  }

  /** `From<DownloadSize> for f64`, in bytes: units scale by powers of 1024;
      any other unit reaches `unimplemented!()`. */
  function SizeBytes(s: DownloadSize): (r: Result<nat>)
    ensures r.Ok? <==> KnownUnit(s.unit)
    ensures !r.Ok? ==> r == Panic(NotImplemented)
    ensures s.unit == BYTE ==> r == Ok(s.value)
    ensures s.unit == GIGABYTE ==> r == Ok(s.value * KIB * KIB * KIB)
  {
    match s.unit
    case BYTE => Ok(s.value)
    case KILOBYTE => Ok(s.value * KIB)
    case MEGABYTE => Ok(s.value * KIB * KIB)
    case GIGABYTE => Ok(s.value * KIB * KIB * KIB)
    case OtherUnit(_) => Panic(NotImplemented)
  }

  /** Each unit is 1024 of the one below it. */
  lemma UnitsScaleBy1024(n: nat)
    ensures SizeBytes(DownloadSize(n, KILOBYTE)) == SizeBytes(DownloadSize(n * KIB, BYTE))
    ensures SizeBytes(DownloadSize(n, MEGABYTE)) == SizeBytes(DownloadSize(n * KIB, KILOBYTE))
    ensures SizeBytes(DownloadSize(n, GIGABYTE)) == SizeBytes(DownloadSize(n * KIB, MEGABYTE))
  {
  }

  /** `From<SizeUnitType> for f64`. */
  function SizeUnitBytes(s: SizeUnitType): (r: Result<nat>)
    ensures s.Value? ==> r == Ok(s.bytes)
  {
    match s
    case UnitSize(size) => SizeBytes(size)
    case Value(bytes) => Ok(bytes)
  }

  /** `From<DownloadSize> for SizeUnitType` (lib/src/live_api/mod.rs): the
      catalog size is kept as it is. */
  function FromDownloadSize(s: DownloadSize): (r: SizeUnitType)
    ensures SizeUnitBytes(r) == SizeBytes(s)
  {
    UnitSize(s)
  }

  /** `ModuleInfo`, the persisted record of one module. */
  datatype ModuleInfo = ModuleInfo(
    url: string,
    integrity: Option<string>,
    moduleType: FileType,
    id: string,
    name: string,
    slug: string,
    description: string,
    category: string,
    downloadSize: nat,
    installedSize: nat,
    required: bool,
    hidden: bool,
    extractedPathRename: Option<PathRename>,
    preSelected: bool,
    destination: Option<string>,
    subModules: Option<seq<ModuleDownload>>,
    typeName: string,
    downloadUrl: string,
    visible: bool,
    selected: bool,
    sync: string,
    parent: string,
    eulaUrl1: string,
    eulaLabel1: string,
    eulaMessage: string,
    renameTo: string,
    renameFrom: string,
    preselected: bool)

  predicate DownloadKnown(md: ModuleDownload)
  {
    KnownUnit(md.downloadSize.unit) && KnownUnit(md.installedSize.unit)
  }

  /** `From<ModuleDownload> for ModuleInfo`. Both sizes are converted, so an
      unknown unit in either panics. */
  function FromDownload(md: ModuleDownload): (r: Result<ModuleInfo>)
    ensures r.Ok? <==> DownloadKnown(md)
    ensures r.Ok? ==>
              var m := r.value;
              m.id == md.id && m.url == md.url && m.downloadUrl == md.url
              && m.moduleType == md.fileType && m.destination == md.destination
              && m.required == md.required && m.hidden == md.hidden
              && m.visible == !md.hidden && !m.selected
              && m.sync == "" && m.parent == "" && m.subModules.None?
              && m.preSelected == md.preSelected && m.preselected == md.preSelected
              && m.category == LiveApi.CategoryName(md.category)
              && Ok(m.downloadSize) == SizeBytes(md.downloadSize)
              && Ok(m.installedSize) == SizeBytes(md.installedSize)
    ensures r.Ok? ==>
              match md.extractedPathRename
              case Some(pr) =>
                r.value.renameFrom == pr.from && r.value.renameTo == pr.to && r.value.extractedPathRename == Some(pr)
              case None =>
                r.value.renameFrom == "" && r.value.renameTo == "" && r.value.extractedPathRename.None?
    ensures r.Ok? ==>
              if md.eula.Some? && |md.eula.value| > 0
              then r.value.eulaUrl1 == md.eula.value[0].url && r.value.eulaLabel1 == md.eula.value[0].labelText
                   && r.value.eulaMessage == md.eula.value[0].message
              else r.value.eulaUrl1 == "" && r.value.eulaLabel1 == "" && r.value.eulaMessage == ""
  {
    if !KnownUnit(md.downloadSize.unit) then SizeBytes(md.downloadSize).PropagateFailure()
    else if !KnownUnit(md.installedSize.unit) then SizeBytes(md.installedSize).PropagateFailure()
    else Ok(Info(md))
  }

  /** The record `From<ModuleDownload>` builds once both sizes convert. */
  function Info(md: ModuleDownload): ModuleInfo
    requires DownloadKnown(md)
  {
    var rename := md.extractedPathRename;
    var eula := if md.eula.Some? && |md.eula.value| > 0 then Some(md.eula.value[0]) else None;
    ModuleInfo(
      md.url, md.integrity, md.fileType, md.id, md.name, md.slug, md.description,
      LiveApi.CategoryName(md.category), SizeBytes(md.downloadSize).value, SizeBytes(md.installedSize).value,
      md.required, md.hidden, rename, md.preSelected, md.destination, None,
      "UnityReleaseModule", md.url, !md.hidden, false, "", "",
      if eula.Some? then eula.value.url else "",
      if eula.Some? then eula.value.labelText else "",
      if eula.Some? then eula.value.message else "",
      if rename.Some? then rename.value.to else "",
      if rename.Some? then rename.value.from else "",
      md.preSelected)
  }

  /** `PartialEq for ModuleInfo`: two records are the same module when their
      ids agree, whatever their other fields. */
  predicate SameModule(a: ModuleInfo, b: ModuleInfo)
  {
    a.id == b.id
  }

  /** `Hash for ModuleInfo` feeds only the id to the hasher. */
  function HashInput(m: ModuleInfo): string
  {
    m.id
  }

  /** Equal records hash alike, and record equality is an equivalence. */
  lemma SameModuleHashesAlike(a: ModuleInfo, b: ModuleInfo, c: ModuleInfo)
    ensures SameModule(a, b) ==> HashInput(a) == HashInput(b)
    ensures SameModule(a, a)
    ensures SameModule(a, b) ==> SameModule(b, a)
    ensures SameModule(a, b) && SameModule(b, c) ==> SameModule(a, c)
  {
  }

  // ---------------------------------------------------------------------
  // Flattening the catalog's module tree (`convert_api_modules`).

  predicate Level2Known(nodes: seq<ApiModule>)
  {
    forall k :: 0 <= k < |nodes| ==> DownloadKnown(nodes[k].download)
  }

  predicate Level1Known(node: ApiModule)
  {
    DownloadKnown(node.download) && (node.subModules.Some? ==> Level2Known(node.subModules.value))
  }

  predicate Level1AllKnown(nodes: seq<ApiModule>)
  {
    forall j :: 0 <= j < |nodes| ==> Level1Known(nodes[j])
  }

  predicate RootKnown(node: ApiModule)
  {
    DownloadKnown(node.download) && (node.subModules.Some? ==> Level1AllKnown(node.subModules.value))
  }

  /** Every module the flattening converts (three levels deep) has sizes in
      known units. */
  predicate TreeKnown(roots: seq<ApiModule>)
  {
    forall i :: 0 <= i < |roots| ==> RootKnown(roots[i])
  }

  /** The downloads of `nodes`, in order. */
  function Downloads(nodes: seq<ApiModule>): (r: seq<ModuleDownload>)
    ensures |r| == |nodes| && forall i :: 0 <= i < |nodes| ==> r[i] == nodes[i].download
    decreases |nodes|
  {
    if nodes == [] then []
    else Downloads(nodes[..|nodes| - 1]) + [nodes[|nodes| - 1].download]
  }

  /** A record whose cost is carried by its parent: required, not visible. */
  predicate FoldedIntoParent(m: ModuleInfo)
  {
    m.required && !m.visible
  }

  /** A record placed under `parentId`: it names its parent, and syncs with
      it when it is folded into it. */
  function Attach(parentId: string, m: ModuleInfo): ModuleInfo
  {
    m.(sync := if FoldedIntoParent(m) then parentId else m.sync, parent := parentId)
  }

  function Level2Record(parentId: string, node: ApiModule): ModuleInfo
    requires DownloadKnown(node.download)
  {
    Attach(parentId, Info(node.download))
  }

  function Level2Records(parentId: string, nodes: seq<ApiModule>): seq<ModuleInfo>
    requires Level2Known(nodes)
    decreases |nodes|
  {
    if nodes == [] then []
    else Level2Records(parentId, nodes[..|nodes| - 1]) + [Level2Record(parentId, nodes[|nodes| - 1])]
  }

  /** Bytes to download for the folded children among `nodes`. */
  function FoldedDownload(nodes: seq<ApiModule>): nat
    requires Level2Known(nodes)
    decreases |nodes|
  {
    if nodes == [] then 0
    else
      var info := Info(nodes[|nodes| - 1].download);
      FoldedDownload(nodes[..|nodes| - 1]) + (if FoldedIntoParent(info) then info.downloadSize else 0)
  }

  /** Bytes installed for the folded children among `nodes`. */
  function FoldedInstalled(nodes: seq<ApiModule>): nat
    requires Level2Known(nodes)
    decreases |nodes|
  {
    if nodes == [] then 0
    else
      var info := Info(nodes[|nodes| - 1].download);
      FoldedInstalled(nodes[..|nodes| - 1]) + (if FoldedIntoParent(info) then info.installedSize else 0)
  }

  function Level1Record(rootId: string, node: ApiModule): ModuleInfo
    requires Level1Known(node)
  {
    var info := Info(node.download);
    var sized := match node.subModules
      case None => info
      case Some(nodes) =>
        info.(downloadSize := info.downloadSize + FoldedDownload(nodes),
              installedSize := info.installedSize + FoldedInstalled(nodes),
              subModules := Some(Downloads(nodes)));
    Attach(rootId, sized)
  }

  /** A level-1 module's children followed by the module itself. */
  function Level1Block(rootId: string, node: ApiModule): seq<ModuleInfo>
    requires Level1Known(node)
  {
    (match node.subModules
     case None => []
     case Some(nodes) => Level2Records(Info(node.download).id, nodes))
    + [Level1Record(rootId, node)]
  }

  function Level1Blocks(rootId: string, nodes: seq<ApiModule>): seq<ModuleInfo>
    requires Level1AllKnown(nodes)
    decreases |nodes|
  {
    if nodes == [] then []
    else Level1Blocks(rootId, nodes[..|nodes| - 1]) + Level1Block(rootId, nodes[|nodes| - 1])
  }

  function RootRecord(node: ApiModule): ModuleInfo
    requires RootKnown(node)
  {
    var info := Info(node.download).(visible := true);
    match node.subModules
    case None => info
    case Some(nodes) => info.(subModules := Some(Downloads(nodes)))
  }

  /** A root's level-1 blocks followed by the root itself. */
  function RootBlock(node: ApiModule): seq<ModuleInfo>
    requires RootKnown(node)
  {
    (match node.subModules
     case None => []
     case Some(nodes) => Level1Blocks(Info(node.download).id, nodes))
    + [RootRecord(node)]
  }

  /** The flat record list `convert_api_modules` builds from the catalog tree. */
  function Flatten(roots: seq<ApiModule>): seq<ModuleInfo>
    requires TreeKnown(roots)
    decreases |roots|
  {
    if roots == [] then []
    else Flatten(roots[..|roots| - 1]) + RootBlock(roots[|roots| - 1])
  }

  /** One more level-2 child extends the records and the folded sums by
      that child alone. */
  lemma Level2Step(parentId: string, nodes: seq<ApiModule>, k: nat)
    requires k < |nodes| && Level2Known(nodes)
    ensures Level2Known(nodes[..k]) && Level2Known(nodes[..k + 1])
    ensures Downloads(nodes[..k + 1]) == Downloads(nodes[..k]) + [nodes[k].download]
    ensures Level2Records(parentId, nodes[..k + 1]) == Level2Records(parentId, nodes[..k]) + [Level2Record(parentId, nodes[k])]
    ensures FoldedDownload(nodes[..k + 1]) == FoldedDownload(nodes[..k])
              + (if FoldedIntoParent(Info(nodes[k].download)) then Info(nodes[k].download).downloadSize else 0)
    ensures FoldedInstalled(nodes[..k + 1]) == FoldedInstalled(nodes[..k])
              + (if FoldedIntoParent(Info(nodes[k].download)) then Info(nodes[k].download).installedSize else 0)
  {
    assert nodes[..k + 1][..k] == nodes[..k];
  }

  /** The record and block of a level-1 module with children, from the
      accumulated sums and child records. */
  lemma Level1BlockWithChildren(rootId: string, node: ApiModule, children: seq<ModuleInfo>, downloadSize: nat, installSize: nat)
    requires Level1Known(node) && node.subModules.Some?
    requires children == Level2Records(Info(node.download).id, node.subModules.value)
    requires downloadSize == Info(node.download).downloadSize + FoldedDownload(node.subModules.value)
    requires installSize == Info(node.download).installedSize + FoldedInstalled(node.subModules.value)
    ensures Level1Block(rootId, node) ==
              children + [Attach(rootId, Info(node.download).(downloadSize := downloadSize, installedSize := installSize,
                                                                subModules := Some(Downloads(node.subModules.value))))]
  {
  }

  /** One more level-1 child extends the root's block by that child's block. */
  lemma Level1Step(rootId: string, nodes: seq<ApiModule>, j: nat)
    requires j < |nodes| && Level1AllKnown(nodes)
    ensures Level1AllKnown(nodes[..j]) && Level1AllKnown(nodes[..j + 1])
    ensures Downloads(nodes[..j + 1]) == Downloads(nodes[..j]) + [nodes[j].download]
    ensures Level1Blocks(rootId, nodes[..j + 1]) == Level1Blocks(rootId, nodes[..j]) + Level1Block(rootId, nodes[j])
  {
    assert nodes[..j + 1][..j] == nodes[..j];
  }

  /** The block of a root with children, from the accumulated child blocks. */
  lemma RootBlockWithChildren(node: ApiModule, children: seq<ModuleInfo>)
    requires RootKnown(node) && node.subModules.Some?
    requires children == Level1Blocks(Info(node.download).id, node.subModules.value)
    ensures RootBlock(node) ==
              children + [Info(node.download).(visible := true, subModules := Some(Downloads(node.subModules.value)))]
  {
  }

  /** `convert_api_modules`: three nested loops over the tree, pushing each
      level-2 record, then its level-1 parent with the folded sizes added,
      then the root. The loop bodies of the two inner levels are the methods
      `ConvertRoot` and `ConvertLevel1` below. */
  method ConvertApiModules(roots: seq<ApiModule>) returns (r: Result<seq<ModuleInfo>>)
    ensures TreeKnown(roots) ==> r == Ok(Flatten(roots))
    ensures !TreeKnown(roots) ==> r == Panic(NotImplemented)
  {
    if !TreeKnown(roots) {
      return Panic(NotImplemented);
    }
    var resultList: seq<ModuleInfo> := [];
    var i := 0;
    while i < |roots|
      invariant 0 <= i <= |roots|
      invariant resultList == Flatten(roots[..i])
    {
      assert RootKnown(roots[i]);
      var block := ConvertRoot(roots[i]);
      resultList := resultList + block;
      assert roots[..i + 1][..i] == roots[..i];
      i := i + 1;
    }
    assert roots[..i] == roots;
    return Ok(resultList);
  }

  /** One pass of the outer loop: the records pushed for one root. */
  method ConvertRoot(root: ApiModule) returns (block: seq<ModuleInfo>)
    requires RootKnown(root)
    ensures block == RootBlock(root)
  {
    block := [];
    var rootInfo := Info(root.download).(visible := true);
    if root.subModules.Some? {
      var subs1 := root.subModules.value;
      var rootChildren: seq<ModuleDownload> := [];
      var j := 0;
      while j < |subs1|
        invariant 0 <= j <= |subs1|
        invariant rootChildren == Downloads(subs1[..j])
        invariant block == Level1Blocks(rootInfo.id, subs1[..j])
      {
        assert Level1Known(subs1[j]);
        Level1Step(rootInfo.id, subs1, j);
        rootChildren := rootChildren + [subs1[j].download];
        var sub1Block := ConvertLevel1(rootInfo.id, subs1[j]);
        block := block + sub1Block;
        j := j + 1;
      }
      assert subs1[..j] == subs1;
      RootBlockWithChildren(root, block);
      rootInfo := rootInfo.(subModules := Some(rootChildren));
    }
    block := block + [rootInfo];
  }

  /** The step both inner loops take on a record: a required module that is
      not visible syncs with its parent; every record names its parent. */
  method AttachToParent(parentId: string, info: ModuleInfo) returns (r: ModuleInfo)
    ensures r == Attach(parentId, info)
    ensures r.parent == parentId && (FoldedIntoParent(info) <==> r.sync == parentId && FoldedIntoParent(r))
  {
    r := info;
    if r.required && !r.visible {
      r := r.(sync := parentId);
    }
    r := r.(parent := parentId);
  }

  /** One pass of the middle loop: a level-1 module's children, whose folded
      sizes it accumulates, then the module itself. */
  method ConvertLevel1(rootId: string, sub1: ApiModule) returns (block: seq<ModuleInfo>)
    requires Level1Known(sub1)
    ensures block == Level1Block(rootId, sub1)
  {
    block := [];
    var sub1Info := Info(sub1.download);
    if sub1.subModules.Some? {
      var subs2 := sub1.subModules.value;
      var downloadSize := sub1Info.downloadSize;
      var installSize := sub1Info.installedSize;
      var sub1Children: seq<ModuleDownload> := [];
      var k := 0;
      while k < |subs2|
        invariant 0 <= k <= |subs2|
        invariant sub1Children == Downloads(subs2[..k])
        invariant downloadSize == sub1Info.downloadSize + FoldedDownload(subs2[..k])
        invariant installSize == sub1Info.installedSize + FoldedInstalled(subs2[..k])
        invariant block == Level2Records(sub1Info.id, subs2[..k])
      {
        var sub2 := subs2[k];
        Level2Step(sub1Info.id, subs2, k);
        sub1Children := sub1Children + [sub2.download];
        var sub2Info := Info(sub2.download);
        if FoldedIntoParent(sub2Info) {
          downloadSize := downloadSize + sub2Info.downloadSize;
          installSize := installSize + sub2Info.installedSize;
        }
        sub2Info := AttachToParent(sub1Info.id, sub2Info);
        block := block + [sub2Info];
        k := k + 1;
      }
      assert subs2[..k] == subs2;
      Level1BlockWithChildren(rootId, sub1, block, downloadSize, installSize);
      sub1Info := sub1Info.(downloadSize := downloadSize, installedSize := installSize,
                            subModules := Some(sub1Children));
    }
    sub1Info := AttachToParent(rootId, sub1Info);
    block := block + [sub1Info];
  }
}

/** Properties of the flat record list `convert_api_modules` produces. */
module ModulesInfoProps {
  import opened Wrappers
  import opened Catalog
  import opened ModulesInfo

  /** `sync` names the parent exactly for a required module that is not
      visible, and is empty otherwise. */
  predicate SyncRule(m: ModuleInfo)
  {
    m.sync == (if FoldedIntoParent(m) then m.parent else "")
  }

  predicate AllSyncRule(recs: seq<ModuleInfo>)
  {
    forall i :: 0 <= i < |recs| ==> SyncRule(recs[i])
  }

  lemma AttachSyncRule(parentId: string, m: ModuleInfo)
    requires m.sync == ""
    ensures SyncRule(Attach(parentId, m)) && Attach(parentId, m).parent == parentId
    ensures Attach(parentId, m).id == m.id && FoldedIntoParent(Attach(parentId, m)) == FoldedIntoParent(m)
  {
  }

  lemma Level2RecordsSyncRule(parentId: string, nodes: seq<ApiModule>)
    requires Level2Known(nodes)
    ensures AllSyncRule(Level2Records(parentId, nodes))
    decreases |nodes|
  {
    if nodes != [] {
      Level2RecordsSyncRule(parentId, nodes[..|nodes| - 1]);
      AttachSyncRule(parentId, Info(nodes[|nodes| - 1].download));
    }
  }

  lemma Level1BlocksSyncRule(rootId: string, nodes: seq<ApiModule>)
    requires Level1AllKnown(nodes)
    ensures AllSyncRule(Level1Blocks(rootId, nodes))
    decreases |nodes|
  {
    if nodes != [] {
      var node := nodes[|nodes| - 1];
      Level1BlocksSyncRule(rootId, nodes[..|nodes| - 1]);
      if node.subModules.Some? {
        Level2RecordsSyncRule(Info(node.download).id, node.subModules.value);
      }
      var info := Info(node.download);
      var sized := match node.subModules
        case None => info
        case Some(subs) =>
          info.(downloadSize := info.downloadSize + FoldedDownload(subs),
                installedSize := info.installedSize + FoldedInstalled(subs),
                subModules := Some(Downloads(subs)));
      AttachSyncRule(rootId, sized);
    }
  }

  /** Every record of the flat list obeys the sync rule. */
  lemma {:induction false} FlattenSyncRule(roots: seq<ApiModule>)
    requires TreeKnown(roots)
    ensures AllSyncRule(Flatten(roots))
    decreases |roots|
  {
    if roots != [] {
      var root := roots[|roots| - 1];
      FlattenSyncRule(roots[..|roots| - 1]);
      if root.subModules.Some? {
        Level1BlocksSyncRule(Info(root.download).id, root.subModules.value);
      }
    }
  }

  /** Every record either has no parent, has parent `p`, or is followed by
      a record whose id is its parent. */
  ghost predicate ParentsFollowOr(recs: seq<ModuleInfo>, p: string)
  {
    forall i :: 0 <= i < |recs| ==>
      recs[i].parent == "" || recs[i].parent == p || exists j :: i < j < |recs| && recs[j].id == recs[i].parent
  }

  /** Every record with a parent is followed by a record with that id. */
  ghost predicate ParentsFollow(recs: seq<ModuleInfo>)
  {
    ParentsFollowOr(recs, "")
  }

  lemma ParentsFollowConcat(a: seq<ModuleInfo>, b: seq<ModuleInfo>, p: string)
    requires ParentsFollowOr(a, p) && ParentsFollowOr(b, p)
    ensures ParentsFollowOr(a + b, p)
  {
    var ab := a + b;
    forall i | 0 <= i < |ab| && ab[i].parent != "" && ab[i].parent != p
      ensures exists j :: i < j < |ab| && ab[j].id == ab[i].parent
    {
      if i < |a| {
        var j :| i < j < |a| && a[j].id == a[i].parent;
        assert ab[j] == a[j];
      } else {
        assert ab[i] == b[i - |a|];
        var j :| i - |a| < j < |b| && b[j].id == b[i - |a|].parent;
        assert ab[j + |a|] == b[j];
      }
    }
  }

  /** Closing a run whose open parents are all `p` with the record of `p`. */
  lemma ParentsFollowClose(a: seq<ModuleInfo>, last: ModuleInfo, p: string)
    requires ParentsFollowOr(a, last.id)
    requires last.parent == p || last.parent == ""
    ensures ParentsFollowOr(a + [last], p)
  {
    var al := a + [last];
    forall i | 0 <= i < |al| && al[i].parent != "" && al[i].parent != p
      ensures exists j :: i < j < |al| && al[j].id == al[i].parent
    {
      assert i < |a| && al[i] == a[i];
      if a[i].parent == last.id {
        assert al[|a|] == last;
      } else {
        var j :| i < j < |a| && a[j].id == a[i].parent;
        assert al[j] == a[j];
      }
    }
  }

  lemma Level2RecordsParents(parentId: string, nodes: seq<ApiModule>)
    requires Level2Known(nodes)
    ensures forall i :: 0 <= i < |Level2Records(parentId, nodes)| ==> Level2Records(parentId, nodes)[i].parent == parentId
    ensures ParentsFollowOr(Level2Records(parentId, nodes), parentId)
    decreases |nodes|
  {
    if nodes != [] {
      Level2RecordsParents(parentId, nodes[..|nodes| - 1]);
    }
  }

  lemma Level1BlockParents(rootId: string, node: ApiModule)
    requires Level1Known(node)
    ensures ParentsFollowOr(Level1Block(rootId, node), rootId)
  {
    var rec := Level1Record(rootId, node);
    var kids := if node.subModules.Some? then Level2Records(Info(node.download).id, node.subModules.value) else [];
    assert Level1Block(rootId, node) == kids + [rec];
    assert rec.id == Info(node.download).id && rec.parent == rootId;
    if node.subModules.Some? {
      Level2RecordsParents(Info(node.download).id, node.subModules.value);
    }
    ParentsFollowClose(kids, rec, rootId);
  }

  lemma Level1BlocksParents(rootId: string, nodes: seq<ApiModule>)
    requires Level1AllKnown(nodes)
    ensures ParentsFollowOr(Level1Blocks(rootId, nodes), rootId)
    decreases |nodes|
  {
    if nodes != [] {
      Level1BlocksParents(rootId, nodes[..|nodes| - 1]);
      Level1BlockParents(rootId, nodes[|nodes| - 1]);
      ParentsFollowConcat(Level1Blocks(rootId, nodes[..|nodes| - 1]), Level1Block(rootId, nodes[|nodes| - 1]), rootId);
    }
  }

  lemma RootBlockParents(root: ApiModule)
    requires RootKnown(root)
    ensures ParentsFollow(RootBlock(root))
  {
    var rec := RootRecord(root);
    var kids := if root.subModules.Some? then Level1Blocks(Info(root.download).id, root.subModules.value) else [];
    assert RootBlock(root) == kids + [rec];
    assert rec.id == Info(root.download).id && rec.parent == "";
    if root.subModules.Some? {
      Level1BlocksParents(Info(root.download).id, root.subModules.value);
    }
    ParentsFollowClose(kids, rec, "");
  }

  /** In the flat list every level-2 record is followed by its level-1
      parent and every level-1 record by its root. */
  lemma {:induction false} FlattenParentsFollow(roots: seq<ApiModule>)
    requires TreeKnown(roots)
    ensures ParentsFollow(Flatten(roots))
    decreases |roots|
  {
    if roots != [] {
      FlattenParentsFollow(roots[..|roots| - 1]);
      RootBlockParents(roots[|roots| - 1]);
      ParentsFollowConcat(Flatten(roots[..|roots| - 1]), RootBlock(roots[|roots| - 1]), "");
    }
  }

  /** A root's record: no parent, forced visible, its own sizes. */
  lemma RootRecordShape(root: ApiModule)
    requires RootKnown(root)
    ensures RootRecord(root).parent == "" && RootRecord(root).sync == "" && RootRecord(root).visible
    ensures RootRecord(root).downloadSize == Info(root.download).downloadSize
    ensures RootRecord(root).installedSize == Info(root.download).installedSize
    ensures RootBlock(root)[|RootBlock(root)| - 1] == RootRecord(root)
  {
  }

  /** Bytes to download over the records folded into their parent. */
  function SumFoldedDownload(recs: seq<ModuleInfo>): nat
    decreases |recs|
  {
    if recs == [] then 0
    else SumFoldedDownload(recs[..|recs| - 1])
         + (if FoldedIntoParent(recs[|recs| - 1]) then recs[|recs| - 1].downloadSize else 0)
  }

  /** Bytes installed over the records folded into their parent. */
  function SumFoldedInstalled(recs: seq<ModuleInfo>): nat
    decreases |recs|
  {
    if recs == [] then 0
    else SumFoldedInstalled(recs[..|recs| - 1])
         + (if FoldedIntoParent(recs[|recs| - 1]) then recs[|recs| - 1].installedSize else 0)
  }

  lemma {:induction false} FoldedSumsAreRecordSums(parentId: string, nodes: seq<ApiModule>)
    requires Level2Known(nodes)
    ensures FoldedDownload(nodes) == SumFoldedDownload(Level2Records(parentId, nodes))
    ensures FoldedInstalled(nodes) == SumFoldedInstalled(Level2Records(parentId, nodes))
    decreases |nodes|
  {
    if nodes != [] {
      var recs := Level2Records(parentId, nodes);
      FoldedSumsAreRecordSums(parentId, nodes[..|nodes| - 1]);
      assert recs[..|recs| - 1] == Level2Records(parentId, nodes[..|nodes| - 1]);
    }
  }

  /** A level-1 record's sizes are its own plus those of the records of its
      children that are folded into it, as emitted just before it. */
  lemma Level1Rollup(rootId: string, node: ApiModule)
    requires Level1Known(node)
    ensures var block := Level1Block(rootId, node);
            var rec := block[|block| - 1];
            var children := block[..|block| - 1];
            && rec == Level1Record(rootId, node)
            && rec.parent == rootId && rec.id == node.download.id
            && (forall i :: 0 <= i < |children| ==> children[i].parent == rec.id)
            && rec.downloadSize == Info(node.download).downloadSize + SumFoldedDownload(children)
            && rec.installedSize == Info(node.download).installedSize + SumFoldedInstalled(children)
  {
    var block := Level1Block(rootId, node);
    match node.subModules
    case None =>
      assert block[..|block| - 1] == [];
    case Some(subs) =>
      FoldedSumsAreRecordSums(Info(node.download).id, subs);
      Level2RecordsParents(Info(node.download).id, subs);
      assert block[..|block| - 1] == Level2Records(Info(node.download).id, subs);
  }
}
