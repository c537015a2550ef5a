/**
 * `PdfAggregateMojo`: after every reactor module has built its own document, the aggregating
 * build copies each module's staged site content under the module's staged id and appends one
 * TOC item per module, whose sub-items are the module's saved TOC with every ref prefixed by the
 * staged id.
 */
module PdfAggregateMojo {
  import opened Wrappers
  import opened JavaLib
  import opened Doxia
  import opened TocFileHelper

  // ----- Reactor projects and staged ids -----

  /** A reactor project as the aggregator reads it. */
  datatype Project = Project(
    artifactId: string,
    name: Option<string>,
    parent: ParentRef,
    buildDirectory: Path,
    hasReporting: bool)

  /** `MavenProject.getParent()`. */
  datatype ParentRef = NoParent | HasParent(project: Project)

  /** The artifactIds from the root ancestor down to `p`. */
  function Lineage(p: Project): (ids: seq<string>)
    ensures |ids| > 0 && ids[|ids| - 1] == p.artifactId
    decreases p
  {
    match p.parent
    case NoParent => [p.artifactId]
    case HasParent(q) => Lineage(q) + [p.artifactId]
  }

  /** The artifactIds of the ancestors of `p`, root first. */
  function Ancestors(p: Project): (ids: seq<string>)
    ensures Lineage(p) == ids + [p.artifactId]
  {
    match p.parent
    case NoParent => []
    case HasParent(q) => Lineage(q)
  }

  /** The staged id: the lineage joined with '/'. */
  function StagedId(p: Project): string
  {
    Join(Lineage(p), '/')
  }

  /**
   * `getStagedId`: walks up the parent chain pushing each artifactId at the front of a deque,
   * then appends them in order, with a '/' after every one but the last.
   */
  method GetStagedId(p: Project) returns (stagedId: string)
    ensures stagedId == StagedId(p)
  {
    var projectPath := [p.artifactId];
    var q := p;
    while q.parent.HasParent?
      invariant Lineage(p) == Ancestors(q) + projectPath
      decreases q
    {
      var parent := q.parent.project;
      assert Ancestors(q) == Ancestors(parent) + [parent.artifactId];
      assert Lineage(p) == Ancestors(parent) + ([parent.artifactId] + projectPath);
      q := parent;
      projectPath := [q.artifactId] + projectPath;
    }
    assert projectPath == Lineage(p);
    stagedId := JoinWithSlashes(projectPath);
  }

  /** The second half of `getStagedId`: each element, followed by '/' unless it is the last. */
  method JoinWithSlashes(projectPath: seq<string>) returns (stagedId: string)
    ensures stagedId == Join(projectPath, '/')
  {
    stagedId := "";
    var i := 0;
    while i < |projectPath|
      invariant 0 <= i <= |projectPath|
      invariant i == 0 ==> stagedId == ""
      invariant 0 < i < |projectPath| ==> stagedId == Join(projectPath[..i], '/') + "/"
      invariant i == |projectPath| ==> stagedId == Join(projectPath[..i], '/')
    {
      if i > 0 {
        JoinAppend(projectPath[..i], projectPath[i], '/');
        assert projectPath[..i] + [projectPath[i]] == projectPath[..i + 1];
      }
      stagedId := stagedId + projectPath[i];
      if i + 1 < |projectPath| {
        stagedId := stagedId + "/";
      }
      i := i + 1;
    }
    assert projectPath[..i] == projectPath;
  }

  /** A project with a parent extends the parent's staged id by '/' and its own artifactId. */
  lemma StagedIdExtendsParent(p: Project)
    requires p.parent.HasParent?
    ensures StagedId(p) == StagedId(p.parent.project) + "/" + p.artifactId
  {
    JoinAppend(Lineage(p.parent.project), p.artifactId, '/');
  }

  /** No artifactId on the way from the root to `p` contains '/'. */
  predicate SlashFreeLineage(p: Project)
  {
    forall k :: 0 <= k < |Lineage(p)| ==> '/' !in Lineage(p)[k]
  }

  /**
   * With '/'-free artifactIds the staged id identifies the lineage: two modules share a staged
   * id only if their chains of artifactIds from the root agree.
   */
  lemma StagedIdInjective(p: Project, q: Project)
    requires SlashFreeLineage(p) && SlashFreeLineage(q)
    requires StagedId(p) == StagedId(q)
    ensures Lineage(p) == Lineage(q)
  {
    SplitJoin(Lineage(p), '/');
    SplitJoin(Lineage(q), '/');
  }

  /** `getModuleWorkingDirectory`: `<build directory>/pdf`, where the module saved its TOC. */
  function ModuleWorkingDirectory(p: Project): Path
  {
    Child(p.buildDirectory, "pdf")
  }

  /** `getModuleSiteDirectoryTmp`: the module's staged site content. */
  function ModuleSiteDirectoryTmp(p: Project): Path
  {
    Child(ModuleWorkingDirectory(p), "site.tmp")
  }

  // ----- Rewriting a module's saved TOC -----

  /** `stagedId + "/" + item.get("ref")`; a null ref prints as "null". */
  function StagedRef(stagedId: string, ref: Option<string>): string
  {
    stagedId + "/" + JavaString(ref)
  }

  /**
   * The item `addTOCItems(parent, item, stagedId)` builds from a loaded node: same name, staged
   * ref, children rebuilt in order. None where some `items` list is missing, which the Java code
   * dereferences and so throws a NullPointerException.
   */
  function Restage(stagedId: string, n: TocNode): Option<TocItem>
    decreases n
  {
    match n.items
    case Missing => None
    case Present(ns) =>
      match RestageAll(stagedId, ns)
      case None => None
      case Some(ts) => Some(TocItem(n.name, Some(StagedRef(stagedId, n.ref)), ts))
  }

  function RestageAll(stagedId: string, ns: seq<TocNode>): (r: Option<seq<TocItem>>)
    ensures r.Some? <==> forall j :: 0 <= j < |ns| ==> Restage(stagedId, ns[j]).Some?
    ensures r.Some? ==> |r.value| == |ns|
    ensures r.Some? ==> forall j :: 0 <= j < |ns| ==> Restage(stagedId, ns[j]) == Some(r.value[j])
    decreases ns
  {
    if ns == [] then Some([])
    else
      match Restage(stagedId, ns[0])
      case None => None
      case Some(t) =>
        match RestageAll(stagedId, ns[1..])
        case None => None
        case Some(ts) => Some([t] + ts)
  }

  /** The recursive `addTOCItems` overload, building the children in a loop. */
  method AddTocItem(n: TocNode, stagedId: string) returns (r: Option<TocItem>)
    ensures r == Restage(stagedId, n)
    decreases n
  {
    var ref := StagedRef(stagedId, n.ref);
    if n.items.Missing? {
      return None;
    }
    var ns := n.items.nodes;
    var children: seq<TocItem> := [];
    var i := 0;
    while i < |ns|
      invariant 0 <= i <= |ns|
      invariant |children| == i
      invariant forall j :: 0 <= j < i ==> Restage(stagedId, ns[j]) == Some(children[j])
    {
      var child := AddTocItem(ns[i], stagedId);
      if child.None? {
        assert !Restage(stagedId, ns[i]).Some?;
        assert RestageAll(stagedId, ns).None?;
        return None;
      }
      children := children + [child.value];
      i := i + 1;
    }
    assert RestageAll(stagedId, ns).Some?;
    assert RestageAll(stagedId, ns).value == children;
    r := Some(TocItem(n.name, Some(ref), children));
  }

  /**
   * Independent statement of the rewrite: the same item with its ref and every descendant's ref
   * replaced by `<stagedId>/<ref>`.
   */
  function Prefixed(stagedId: string, t: TocItem): (r: TocItem)
    ensures r.name == t.name && |r.items| == |t.items|
    decreases t, 1
  {
    TocItem(t.name, Some(StagedRef(stagedId, t.ref)), PrefixedAll(stagedId, t.items))
  }

  function PrefixedAll(stagedId: string, ts: seq<TocItem>): (rs: seq<TocItem>)
    ensures |rs| == |ts|
    ensures forall j :: 0 <= j < |ts| ==> rs[j] == Prefixed(stagedId, ts[j])
    decreases ts, 0
  {
    if ts == [] then [] else [Prefixed(stagedId, ts[0])] + PrefixedAll(stagedId, ts[1..])
  }

  /** Restaging what `saveTOC` wrote for an item gives that item with every ref prefixed. */
  lemma {:induction false} RestageSaved(stagedId: string, t: TocItem)
    ensures Restage(stagedId, EncodeItem(t)) == Some(Prefixed(stagedId, t))
    decreases t, 1
  {
    RestageAllSaved(stagedId, t.items);
  }

  lemma {:induction false} RestageAllSaved(stagedId: string, ts: seq<TocItem>)
    ensures RestageAll(stagedId, EncodeItems(ts)) == Some(PrefixedAll(stagedId, ts))
    decreases ts, 0
  {
    forall j | 0 <= j < |ts|
      ensures Restage(stagedId, EncodeItems(ts)[j]) == Some(PrefixedAll(stagedId, ts)[j])
    {
      assert ts[j] in ts;
      RestageSaved(stagedId, ts[j]);
    }
    var r := RestageAll(stagedId, EncodeItems(ts));
    assert r.Some?;
    assert r.value == PrefixedAll(stagedId, ts);
  }

  /** A rewrite succeeds exactly on the trees that decode as TOC items (no `items` missing). */
  lemma {:induction false} RestageDefinedIffDecodable(stagedId: string, n: TocNode)
    ensures Restage(stagedId, n).Some? <==> DecodeItem(n).Some?
    decreases n, 1
  {
    if n.items.Present? {
      RestageAllDefinedIffDecodable(stagedId, n.items.nodes);
    }
  }

  lemma {:induction false} RestageAllDefinedIffDecodable(stagedId: string, ns: seq<TocNode>)
    ensures RestageAll(stagedId, ns).Some? <==> DecodeItems(ns).Some?
    decreases ns, 0
  {
    if ns != [] {
      RestageDefinedIffDecodable(stagedId, ns[0]);
      RestageAllDefinedIffDecodable(stagedId, ns[1..]);
    }
  }

  // ----- One module's top-level item -----

  /** What `loadToc(project)` returns after catching the IOException: an empty map. */
  const EmptyMap: TocNode := TocNode(None, None, Missing)

  /** The tree the aggregator works from: the module's saved TOC, or the empty map. */
  function LoadedOrEmpty(files: map<Path, TocNode>, p: Project): TocNode
  {
    match Loaded(files, ModuleWorkingDirectory(p))
    case Success(tree) => tree
    case Failure(_) => EmptyMap
  }

  /** The private `loadToc(project)`: a failed load is logged and yields the empty map. */
  method LoadModuleToc(store: TocStore, p: Project) returns (toc: TocNode)
    ensures toc == LoadedOrEmpty(store.files, p)
    ensures TocFile(ModuleWorkingDirectory(p)) !in store.files ==> toc.items.Missing?
  {
    var r := store.LoadToc(ModuleWorkingDirectory(p));
    match r
    case Success(tree) => toc := tree;
    case Failure(_) => toc := EmptyMap;
  }

  /** A saved TOC whose only top-level item is the generated-reports bucket. */
  predicate LoneProjectInfo(items: seq<TocNode>)
  {
    |items| == 1 && items[0].ref == Some("project-info")
  }

  /** The nodes whose rewrites become the module item's children, after the collapsing rule. */
  function ModuleChildren(loaded: TocNode): Items
  {
    match loaded.items
    case Missing => Missing
    case Present(items) => if LoneProjectInfo(items) then items[0].items else Present(items)
  }

  /**
   * The item `addTOCItems(topLevelToc, project)` appends: the project name, the staged id as ref,
   * and the rewritten children. None where the Java code throws a NullPointerException.
   */
  function ModuleItem(p: Project, loaded: TocNode): Option<TocItem>
  {
    match ModuleChildren(loaded)
    case Missing => None
    case Present(ns) =>
      match RestageAll(StagedId(p), ns)
      case None => None
      case Some(children) => Some(TocItem(p.name, Some(StagedId(p)), children))
  }

  /** `addTOCItems(topLevelToc, project)`: appends the module's item, or throws (false). */
  method AddTocItems(topLevelToc: DocumentToc, p: Project, store: TocStore) returns (ok: bool)
    modifies topLevelToc
    ensures ok == ModuleItem(p, LoadedOrEmpty(store.files, p)).Some?
    ensures topLevelToc.items == old(topLevelToc.items)
      + (if ok then [ModuleItem(p, LoadedOrEmpty(store.files, p)).value] else [])
    ensures topLevelToc.name == old(topLevelToc.name)
  {
    var stagedId := GetStagedId(p);
    var toc := LoadModuleToc(store, p);
    if toc.items.Missing? {
      return false;
    }
    var items := toc.items;
    if |items.nodes| == 1 && items.nodes[0].ref == Some("project-info") {
      items := items.nodes[0].items;
    }
    if items.Missing? {
      return false;
    }
    var ns := items.nodes;
    var children: seq<TocItem> := [];
    var i := 0;
    while i < |ns|
      invariant 0 <= i <= |ns|
      invariant |children| == i
      invariant forall j :: 0 <= j < i ==> Restage(stagedId, ns[j]) == Some(children[j])
      invariant unchanged(topLevelToc)
    {
      var child := AddTocItem(ns[i], stagedId);
      if child.None? {
        assert !Restage(stagedId, ns[i]).Some?;
        assert RestageAll(stagedId, ns).None?;
        return false;
      }
      children := children + [child.value];
      i := i + 1;
    }
    assert RestageAll(stagedId, ns).Some?;
    assert RestageAll(stagedId, ns).value == children;
    assert ModuleChildren(toc) == items;
    topLevelToc.AddItem(TocItem(p.name, Some(stagedId), children));
    ok := true;
  }

  /**
   * What aggregation makes of a module's saved TOC: one item named after the project with the
   * staged id as ref, whose children are the saved top-level items with every ref prefixed by the
   * staged id, except that a lone `project-info` item is replaced by its own children.
   */
  lemma ModuleItemOfSavedToc(p: Project, name: Option<string>, items: seq<TocItem>)
    ensures var kept := if |items| == 1 && items[0].ref == Some("project-info") then items[0].items else items;
      ModuleItem(p, EncodeToc(name, items))
        == Some(TocItem(p.name, Some(StagedId(p)), PrefixedAll(StagedId(p), kept)))
  {
    if |items| == 1 && items[0].ref == Some("project-info") {
      assert EncodeItems(items)[0] == EncodeItem(items[0]);
      RestageAllSaved(StagedId(p), items[0].items);
    } else {
      RestageAllSaved(StagedId(p), items);
    }
  }

  /** A module whose TOC could not be loaded makes `addTOCItems` throw. */
  lemma MissingTocThrows(files: map<Path, TocNode>, p: Project)
    requires TocFile(ModuleWorkingDirectory(p)) !in files
    ensures ModuleItem(p, LoadedOrEmpty(files, p)).None?
  {
  }

  // ----- Staged site content -----

  /** The directories on disk that the copy step looks at. */
  datatype SiteDirs = SiteDirs(
    existing: set<Path>,                  // directories that exist
    subdirectories: map<Path, seq<string>>, // the non-SCM top-level directory names of a directory
    uncreatable: set<Path>)               // directories `mkdirs` fails to create

  function DirectoryNames(site: SiteDirs, dir: Path): seq<string>
  {
    if dir in site.subdirectories then site.subdirectories[dir] else []
  }

  /** The destination `<dst>/<name>/<stagedId>` of a directory neither exists nor can be created. */
  predicate CopyFails(dst: Path, stagedId: string, name: string, site: SiteDirs)
  {
    var dstDir := Child(Child(dst, name), stagedId);
    dstDir !in site.existing && dstDir in site.uncreatable
  }

  /**
   * The copies made for `names`, in order, up to the first destination that neither exists nor
   * can be created; the rest of the module is then abandoned.
   */
  function CopiesUntilFailure(src: Path, dst: Path, stagedId: string, names: seq<string>, site: SiteDirs): (copies: seq<(Path, Path)>)
    ensures |copies| <= |names|
    ensures forall k :: 0 <= k < |copies| ==>
      copies[k] == (Child(src, names[k]), Child(Child(dst, names[k]), stagedId))
  {
    if names == [] then []
    else
      var dstDir := Child(Child(dst, names[0]), stagedId);
      if CopyFails(dst, stagedId, names[0], site) then []
      else [(Child(src, names[0]), dstDir)] + CopiesUntilFailure(src, dst, stagedId, names[1..], site)
  }

  /**
   * The stop rule: every directory before the stop has a destination that exists or can be
   * created, and the copies stop short only at a directory whose destination cannot.
   */
  lemma {:induction false} CopiesStopAtFirstFailure(src: Path, dst: Path, stagedId: string, names: seq<string>, site: SiteDirs)
    ensures var copies := CopiesUntilFailure(src, dst, stagedId, names, site);
      (forall k :: 0 <= k < |copies| ==> !CopyFails(dst, stagedId, names[k], site))
      && (|copies| < |names| ==> CopyFails(dst, stagedId, names[|copies|], site))
    decreases |names|
  {
    if names != [] {
      CopiesStopAtFirstFailure(src, dst, stagedId, names[1..], site);
    }
  }

  /** The copies `copySiteDirectoryTmp` makes for a module (source dir, destination dir). */
  function SiteCopies(p: Project, dstSiteTmp: Path, site: SiteDirs): seq<(Path, Path)>
  {
    var src := ModuleSiteDirectoryTmp(p);
    if !p.hasReporting || src !in site.existing then []
    else CopiesUntilFailure(src, dstSiteTmp, StagedId(p), DirectoryNames(site, src), site)
  }

  /**
   * `copySiteDirectoryTmp`: a module without reporting or without `site.tmp` is skipped; otherwise
   * each top-level directory `d` of its `site.tmp` goes to `<dstSiteTmp>/d/<stagedId>`.
   */
  method CopySiteDirectoryTmp(p: Project, dstSiteTmp: Path, site: SiteDirs) returns (copies: seq<(Path, Path)>)
    ensures copies == SiteCopies(p, dstSiteTmp, site)
    ensures !p.hasReporting ==> copies == []
  {
    copies := [];
    if !p.hasReporting {
      return;
    }
    var srcSiteTmp := ModuleSiteDirectoryTmp(p);
    if srcSiteTmp !in site.existing {
      return;
    }
    var stagedId := GetStagedId(p);
    var srcDirNames := DirectoryNames(site, srcSiteTmp);
    var i := 0;
    while i < |srcDirNames|
      invariant 0 <= i <= |srcDirNames|
      invariant CopiesUntilFailure(srcSiteTmp, dstSiteTmp, stagedId, srcDirNames, site)
        == copies + CopiesUntilFailure(srcSiteTmp, dstSiteTmp, stagedId, srcDirNames[i..], site)
    {
      assert srcDirNames[i..][1..] == srcDirNames[i + 1..];
      var srcDir := Child(srcSiteTmp, srcDirNames[i]);
      var dstDir := Child(Child(dstSiteTmp, srcDirNames[i]), stagedId);
      if dstDir !in site.existing && dstDir in site.uncreatable {
        return;
      }
      copies := copies + [(srcDir, dstDir)];
      i := i + 1;
    }
  }

  // ----- The reactor loop -----

  /** What one reactor project contributes: its copies, and its item or None where it throws. */
  datatype Outcome = Outcome(copies: seq<(Path, Path)>, item: Option<TocItem>)

  function ModuleOutcome(p: Project, files: map<Path, TocNode>, dstSiteTmp: Path, site: SiteDirs): Outcome
  {
    Outcome(SiteCopies(p, dstSiteTmp, site), ModuleItem(p, LoadedOrEmpty(files, p)))
  }

  /** The outcomes of the reactor projects, in reactor order. */
  function Outcomes(reactor: seq<Project>, files: map<Path, TocNode>, dstSiteTmp: Path, site: SiteDirs): (outs: seq<Outcome>)
    ensures |outs| == |reactor|
    ensures forall k :: 0 <= k < |reactor| ==> outs[k] == ModuleOutcome(reactor[k], files, dstSiteTmp, site)
  {
    if reactor == [] then []
    else [ModuleOutcome(reactor[0], files, dstSiteTmp, site)] + Outcomes(reactor[1..], files, dstSiteTmp, site)
  }

  /** What the reactor loop produces: module items, copies, and whether it ran to the end. */
  datatype Aggregation = Aggregation(items: seq<TocItem>, copies: seq<(Path, Path)>, completed: bool)

  /**
   * Each project in order has its copies made and its item appended; the first project whose
   * item throws ends the loop after its copies.
   */
  function Collect(outs: seq<Outcome>): Aggregation
  {
    if outs == [] then Aggregation([], [], true)
    else
      match outs[0].item
      case None => Aggregation([], outs[0].copies, false)
      case Some(t) =>
        var rest := Collect(outs[1..]);
        Aggregation([t] + rest.items, outs[0].copies + rest.copies, rest.completed)
  }

  /** The reactor loop of `appendGeneratedReports` run over the whole reactor. */
  function Aggregate(reactor: seq<Project>, files: map<Path, TocNode>, dstSiteTmp: Path, site: SiteDirs): Aggregation
  {
    Collect(Outcomes(reactor, files, dstSiteTmp, site))
  }

  /** Collecting a completed prefix and then the rest is collecting the whole. */
  lemma {:induction false} CollectAppend(xs: seq<Outcome>, ys: seq<Outcome>)
    requires Collect(xs).completed
    ensures Collect(xs + ys)
      == Aggregation(Collect(xs).items + Collect(ys).items, Collect(xs).copies + Collect(ys).copies, Collect(ys).completed)
    decreases |xs|
  {
    if xs == [] {
      assert xs + ys == ys;
    } else {
      assert (xs + ys)[0] == xs[0];
      assert (xs + ys)[1..] == xs[1..] + ys;
      CollectAppend(xs[1..], ys);
    }
  }

  /**
   * The loop runs to the end exactly when no project's item throws, and then it has appended
   * every project's item, in reactor order.
   */
  lemma {:induction false} CollectCompleted(outs: seq<Outcome>)
    ensures Collect(outs).completed <==> forall k :: 0 <= k < |outs| ==> outs[k].item.Some?
    ensures Collect(outs).completed ==> |Collect(outs).items| == |outs|
    ensures Collect(outs).completed ==>
      forall k :: 0 <= k < |outs| ==> outs[k].item == Some(Collect(outs).items[k])
    decreases |outs|
  {
    if outs != [] {
      CollectCompleted(outs[1..]);
      if outs[0].item.Some? {
        assert forall k :: 1 <= k < |outs| ==> outs[k] == outs[1..][k - 1];
      }
    }
  }

  /** Over a whole reactor: every module's item, in order, unless some module's item throws. */
  lemma AggregateCompleted(reactor: seq<Project>, files: map<Path, TocNode>, dst: Path, site: SiteDirs)
    ensures var a := Aggregate(reactor, files, dst, site);
      (a.completed <==> forall k :: 0 <= k < |reactor| ==> ModuleItem(reactor[k], LoadedOrEmpty(files, reactor[k])).Some?)
      && (a.completed ==> (|a.items| == |reactor|
          && forall k :: 0 <= k < |reactor| ==> ModuleItem(reactor[k], LoadedOrEmpty(files, reactor[k])) == Some(a.items[k])))
  {
    CollectCompleted(Outcomes(reactor, files, dst, site));
  }

  /** The loop's step after a completed prefix: a project whose item is appended extends it. */
  lemma CollectStep(outs: seq<Outcome>, i: nat)
    requires i < |outs| && Collect(outs[..i]).completed && outs[i].item.Some?
    ensures Collect(outs[..i + 1]) == Aggregation(Collect(outs[..i]).items + [outs[i].item.value],
      Collect(outs[..i]).copies + outs[i].copies, true)
  {
    CollectAppend(outs[..i], [outs[i]]);
    assert outs[..i] + [outs[i]] == outs[..i + 1];
  }

  /** The loop's step after a completed prefix: a project whose item throws ends the loop. */
  lemma CollectStop(outs: seq<Outcome>, i: nat)
    requires i < |outs| && Collect(outs[..i]).completed && outs[i].item.None?
    ensures Collect(outs) == Aggregation(Collect(outs[..i]).items,
      Collect(outs[..i]).copies + outs[i].copies, false)
  {
    CollectAppend(outs[..i], outs[i..]);
    assert outs[..i] + outs[i..] == outs;
  }

  /** How the aggregating run ended. */
  datatype AppendStatus = Appended | NoSiteTmp | NullPointer

  /**
   * The aggregator's `appendGeneratedReports`. The inherited part appends nothing, because the
   * aggregator never includes reports. Without a staged site directory nothing is appended;
   * when getting it failed the directory is null and the existence check throws.
   */
  method AppendGeneratedReports(model: DocumentModel, reactor: seq<Project>, store: TocStore,
                                siteTmp: Option<Path>, site: SiteDirs)
    returns (status: AppendStatus, copies: seq<(Path, Path)>)
    modifies model.toc
    ensures model.toc.name == old(model.toc.name)
    ensures siteTmp.None? ==> status == NullPointer && copies == [] && model.toc.items == old(model.toc.items)
    ensures siteTmp.Some? && siteTmp.value !in site.existing ==>
      status == NoSiteTmp && copies == [] && model.toc.items == old(model.toc.items)
    ensures siteTmp.Some? && siteTmp.value in site.existing ==>
      var a := Aggregate(reactor, store.files, siteTmp.value, site);
      model.toc.items == old(model.toc.items) + a.items && copies == a.copies
      && (status == Appended <==> a.completed) && (status == NullPointer <==> !a.completed)
  {
    var toc := model.toc;
    copies := [];
    if siteTmp.None? {
      return NullPointer, copies;
    }
    var dstSiteTmp := siteTmp.value;
    if dstSiteTmp !in site.existing {
      return NoSiteTmp, copies;
    }
    ghost var added: seq<TocItem> := [];
    ghost var outs := Outcomes(reactor, store.files, dstSiteTmp, site);
    var i := 0;
    while i < |reactor|
      invariant 0 <= i <= |reactor|
      invariant Collect(outs[..i]) == Aggregation(added, copies, true)
      invariant toc.items == old(toc.items) + added
      invariant toc.name == old(toc.name)
    {
      var p := reactor[i];
      var moduleCopies := CopySiteDirectoryTmp(p, dstSiteTmp, site);
      copies := copies + moduleCopies;
      var ok := AddTocItems(toc, p, store);
      assert outs[i] == ModuleOutcome(p, store.files, dstSiteTmp, site);
      if !ok {
        CollectStop(outs, i);
        return NullPointer, copies;
      }
      CollectStep(outs, i);
      added := added + [ModuleItem(p, LoadedOrEmpty(store.files, p)).value];
      i := i + 1;
    }
    assert outs[..i] == outs;
    status := Appended;
  }

  // ----- Example: a three-level reactor -----
  // The lemmas below illustrate the general ones above (StagedIdExtendsParent, ModuleItemOfSavedToc,
  // AggregateCompleted) on one concrete reactor; they add no coverage beyond them.

  const Root: Project := Project("root", Some("Root"), NoParent, "root/target", true)
  const ModuleA: Project := Project("a", Some("A"), HasParent(Root), "root/a/target", true)
  const ModuleB: Project := Project("b", Some("B"), HasParent(ModuleA), "root/a/b/target", true)

  /** The saved TOC of a module holding one page `x`. */
  const PageX: TocItem := TocItem(Some("X"), Some("x"), [])

  predicate SavedTocIs(files: map<Path, TocNode>, p: Project, tree: TocNode)
  {
    TocFile(ModuleWorkingDirectory(p)) in files && files[TocFile(ModuleWorkingDirectory(p))] == tree
  }

  /**
   * Nested modules `root`, `root/a` and `root/a/b` that each saved a TOC with the one page `x`
   * aggregate into three module items whose pages are `root/x`, `root/a/x` and `root/a/b/x`:
   * `AggregateCompleted` and `ModuleItemOfSavedToc` applied to one reactor.
   */
  lemma NestedModulesExample(files: map<Path, TocNode>, dst: Path, site: SiteDirs)
    requires SavedTocIs(files, Root, EncodeToc(None, [PageX]))
    requires SavedTocIs(files, ModuleA, EncodeToc(None, [PageX]))
    requires SavedTocIs(files, ModuleB, EncodeToc(None, [PageX]))
    ensures Aggregate([Root, ModuleA, ModuleB], files, dst, site).items == [
      TocItem(Some("Root"), Some("root"), [TocItem(Some("X"), Some("root/x"), [])]),
      TocItem(Some("A"), Some("root/a"), [TocItem(Some("X"), Some("root/a/x"), [])]),
      TocItem(Some("B"), Some("root/a/b"), [TocItem(Some("X"), Some("root/a/b/x"), [])])]
  {
    ExampleStagedIds();
    PageXStaged(Root, files);
    PageXStaged(ModuleA, files);
    PageXStaged(ModuleB, files);
    var reactor := [Root, ModuleA, ModuleB];
    AggregateCompleted(reactor, files, dst, site);
    var a := Aggregate(reactor, files, dst, site);
    assert ModuleItem(reactor[0], LoadedOrEmpty(files, reactor[0])) == Some(a.items[0]);
    assert ModuleItem(reactor[1], LoadedOrEmpty(files, reactor[1])) == Some(a.items[1]);
    assert ModuleItem(reactor[2], LoadedOrEmpty(files, reactor[2])) == Some(a.items[2]);
  }

  /** The staged ids of the example modules, and of their page `x`: `StagedIdExtendsParent` applied twice. */
  lemma ExampleStagedIds()
    ensures StagedId(Root) == "root" && StagedId(Root) + "/x" == "root/x"
    ensures StagedId(ModuleA) == "root/a" && StagedId(ModuleA) + "/x" == "root/a/x"
    ensures StagedId(ModuleB) == "root/a/b" && StagedId(ModuleB) + "/x" == "root/a/b/x"
  {
    StagedIdExtendsParent(ModuleA);
    StagedIdExtendsParent(ModuleB);
    assert StagedId(Root) == "root";
    assert StagedId(ModuleA) == "root/a";
  }

  /** A module that saved just the page `x` contributes one item with the page `<stagedId>/x` (`ModuleItemOfSavedToc` on one TOC). */
  lemma PageXStaged(p: Project, files: map<Path, TocNode>)
    requires SavedTocIs(files, p, EncodeToc(None, [PageX]))
    ensures ModuleItem(p, LoadedOrEmpty(files, p))
      == Some(TocItem(p.name, Some(StagedId(p)), [TocItem(Some("X"), Some(StagedId(p) + "/x"), [])]))
  {
    var id := StagedId(p);
    assert LoadedOrEmpty(files, p) == EncodeToc(None, [PageX]);
    assert PageX.ref != Some("project-info");
    ModuleItemOfSavedToc(p, None, [PageX]);
    assert StagedRef(id, PageX.ref) == id + "/x";
    assert PrefixedAll(StagedId(p), PageX.items) == [];
    assert PrefixedAll(StagedId(p), [PageX]) == [Prefixed(StagedId(p), PageX)];
  }
}
