/**
 * `PdfMojo`: renders a project's site documents into one PDF per site locale. The model keeps
 * the decision rules around rendering (parameter normalisation, locales and their directories,
 * excludes, the output name, meta defaults, the generated-reports TOC entry, the default report
 * plugin, the report-writing fix-up) and the order in which document models are built and their
 * TOCs saved.
 */
module PdfMojo {
  import opened Wrappers
  import opened JavaLib
  import opened Doxia
  import opened TocFileHelper
  import opened DocumentDescriptorReader

  // ----- Parameters -----

  /** The document renderer `init` selects. */
  datatype Renderer = FoRenderer | ITextRenderer

  /** `implementation`: "itext" in any case selects iText; "fo", or anything else, selects FO. */
  function SelectRenderer(implementation: string): Renderer
  {
    if EqualsIgnoreCase(implementation, "fo") then FoRenderer
    else if EqualsIgnoreCase(implementation, "itext") then ITextRenderer
    else FoRenderer
  }

  /** iText is selected exactly for the spellings of "itext". */
  lemma SelectRendererIff(implementation: string)
    ensures SelectRenderer(implementation) == ITextRenderer <==> EqualsIgnoreCase(implementation, "itext")
  {
  }

  /** A `generateTOC` value `init` accepts: none, start or end in any case. */
  predicate ValidGenerateToc(value: string)
  {
    EqualsIgnoreCase(value, "none") || EqualsIgnoreCase(value, "start") || EqualsIgnoreCase(value, "end")
  }

  /** `init`'s rule for `generateTOC`: accepted values are kept as written, others become "start". */
  function NormalizedGenerateToc(value: string): string
  {
    if ValidGenerateToc(value) then value else "start"
  }

  /** The normalised value is always accepted, an accepted value is kept verbatim, and normalising is idempotent. */
  lemma NormalizedGenerateTocValid(value: string)
    ensures ValidGenerateToc(NormalizedGenerateToc(value))
    ensures ValidGenerateToc(value) ==> NormalizedGenerateToc(value) == value
    ensures !ValidGenerateToc(value) ==> NormalizedGenerateToc(value) == "start"
    ensures NormalizedGenerateToc(NormalizedGenerateToc(value)) == NormalizedGenerateToc(value)
  {
    var start := "start";
    assert forall i :: 0 <= i < |start| ==> FoldCase(start[i]) == start[i];
  }

  // ----- Locales -----

  /** `getLocaleDirectory`: the base directory for the default language, `<basedir>/<language>` for any other. */
  function LocaleDirectory(basedir: Path, locale: Locale, defaultLocale: Locale): Path
  {
    if locale.language == defaultLocale.language then basedir else Child(basedir, locale.language)
  }

  /** Locales share a directory only when they share a language, so each language renders apart. */
  lemma LocaleDirectoryInjective(basedir: Path, l1: Locale, l2: Locale, defaultLocale: Locale)
    requires LocaleDirectory(basedir, l1, defaultLocale) == LocaleDirectory(basedir, l2, defaultLocale)
    ensures l1.language == l2.language
  {
    if l1.language != defaultLocale.language && l2.language != defaultLocale.language {
      ChildNameInjective(basedir, l1.language, l2.language);
    }
  }

  /** The exclude pattern for one locale's sub-directory. */
  function LocaleExclude(locale: Locale): string
  {
    ",**/" + locale.language + "/*"
  }

  /** The patterns excluding every locale whose language is not the default's, in list order. */
  function LocaleExcludes(locales: seq<Locale>, defaultLocale: Locale): string
  {
    if locales == [] then ""
    else
      var last := locales[|locales| - 1];
      LocaleExcludes(locales[..|locales| - 1], defaultLocale)
        + (if last.language != defaultLocale.language then LocaleExclude(last) else "")
  }

  /** Listing one more locale appends its pattern, or nothing for the default language. */
  lemma {:induction false} LocaleExcludesOfPrefix(locales: seq<Locale>, i: nat, defaultLocale: Locale)
    requires i < |locales|
    ensures LocaleExcludes(locales[..i + 1], defaultLocale) == LocaleExcludes(locales[..i], defaultLocale)
      + (if locales[i].language != defaultLocale.language then LocaleExclude(locales[i]) else "")
  {
    assert locales[..i + 1][..i] == locales[..i];
  }

  /** Locales all in the default language add no pattern. */
  lemma {:induction false} LocaleExcludesOfDefaultLanguage(locales: seq<Locale>, defaultLocale: Locale)
    requires forall k :: 0 <= k < |locales| ==> locales[k].language == defaultLocale.language
    ensures LocaleExcludes(locales, defaultLocale) == ""
  {
    if locales != [] {
      LocaleExcludesOfDefaultLanguage(locales[..|locales| - 1], defaultLocale);
    }
  }

  /** One turn of the excludes loop: appending the locale's pattern extends the patterns so far by that locale's. */
  lemma ExcludesStep(excludes: string, defaultExcludes: string, before: string, after: string,
                     locale: Locale, defaultLocale: Locale)
    requires excludes == defaultExcludes + before
    requires after == before + (if locale.language != defaultLocale.language then LocaleExclude(locale) else "")
    ensures locale.language != defaultLocale.language ==>
      excludes + ",**/" + locale.language + "/*" == defaultExcludes + after
    ensures locale.language == defaultLocale.language ==> excludes == defaultExcludes + after
  {
    if locale.language != defaultLocale.language {
      var pattern := LocaleExclude(locale);
      assert excludes + ",**/" + locale.language + "/*" == excludes + pattern;
      assert excludes + pattern == defaultExcludes + (before + pattern);
    } else {
      assert before + "" == before;
    }
  }

  /**
   * `getDefaultExcludesWithLocales`: the default excludes, then the sub-directory pattern of
   * every locale whose language is not the default's, in list order.
   */
  method GetDefaultExcludesWithLocales(locales: seq<Locale>, defaultLocale: Locale, defaultExcludes: string)
    returns (excludes: string)
    ensures excludes == defaultExcludes + LocaleExcludes(locales, defaultLocale)
  {
    excludes := defaultExcludes;
    var i := 0;
    while i < |locales|
      invariant 0 <= i <= |locales|
      invariant excludes == defaultExcludes + LocaleExcludes(locales[..i], defaultLocale)
    {
      LocaleExcludesOfPrefix(locales, i, defaultLocale);
      ExcludesStep(excludes, defaultExcludes, LocaleExcludes(locales[..i], defaultLocale),
                   LocaleExcludes(locales[..i + 1], defaultLocale), locales[i], defaultLocale);
      if locales[i].language != defaultLocale.language {
        excludes := excludes + ",**/" + locales[i].language + "/*";
      }
      i := i + 1;
    }
    assert locales[..i] == locales;
  }

  // ----- Output name and meta data -----

  /** The name the generated PDF files get: the model's output name trimmed, with ".pdf" added when missing. */
  function PdfOutputName(outputName: string): string
  {
    var name := Trim(outputName);
    if EndsWith(name, ".pdf") then name else name + ".pdf"
  }

  /** The PDF name is trimmed and ends with ".pdf", and applying the rule again changes nothing. */
  lemma PdfOutputNameIdempotent(outputName: string)
    ensures EndsWith(PdfOutputName(outputName), ".pdf")
    ensures Trimmed(PdfOutputName(outputName))
    ensures PdfOutputName(PdfOutputName(outputName)) == PdfOutputName(outputName)
  {
    var name := Trim(outputName);
    var r := PdfOutputName(outputName);
    if !EndsWith(name, ".pdf") {
      assert r[|r| - 1] == 'f';
      assert r[0] == if name == [] then '.' else name[0];
    }
    assert Trimmed(r);
    TrimOfTrimmed(r);
  }

  /** A name that already ends in ".pdf" after trimming only loses its blank margins. */
  lemma PdfOutputNameKeepsPdfSuffix(core: string, margin: string)
    requires Trimmed(core) && EndsWith(core, ".pdf")
    requires forall k :: 0 <= k < |margin| ==> Blank(margin[k])
    ensures PdfOutputName(margin + core + margin) == core
  {
    TrimStripsMargins(margin, core, margin);
  }

  /** `getDefaultGenerator`: a null plugin version prints as "null"; the implementation is the raw parameter. */
  function DefaultGenerator(pluginVersion: Option<string>, implementation: string): (generator: string)
    ensures |generator| > 20 && generator[..20] == "Maven PDF Plugin v. "
    ensures EndsWith(generator, ", '" + implementation + "' implementation.")
  {
    "Maven PDF Plugin v. " + JavaString(pluginVersion) + ", '" + implementation + "' implementation."
  }

  /**
   * The meta data after `getDocumentModelFromDescriptor`: a missing meta is created, and an empty
   * language or generator is set to the locale's language or the default generator.
   */
  function DefaultedMeta(meta: Option<Meta>, language: string, generator: string): Meta
  {
    var m := if meta.None? then Meta(None, None) else meta.value;
    Meta(if IsEmpty(m.language) then Some(language) else m.language,
         if IsEmpty(m.generator) then Some(generator) else m.generator)
  }

  /**
   * Values already set are kept, empty ones receive the defaults, and defaulting an already
   * defaulted meta changes nothing.
   */
  lemma DefaultedMetaProperties(meta: Option<Meta>, language: string, generator: string)
    ensures var d := DefaultedMeta(meta, language, generator);
      (meta.Some? && !IsEmpty(meta.value.language) ==> d.language == meta.value.language)
      && (meta.Some? && !IsEmpty(meta.value.generator) ==> d.generator == meta.value.generator)
      && ((meta.None? || IsEmpty(meta.value.language)) ==> d.language == Some(language))
      && ((meta.None? || IsEmpty(meta.value.generator)) ==> d.generator == Some(generator))
      && DefaultedMeta(Some(d), language, generator) == d
  {
  }

  // ----- The generated-reports TOC entry -----

  /** A report generated for a locale: its name in that locale and its output name (may be null). */
  datatype ReportInfo = ReportInfo(name: string, outputName: Option<string>)

  /** What reading a generated document's title gives: a title, null (a parse error), or an IOException. */
  datatype TitleResult = Title(title: string) | NoTitle | TitleIoError

  /** A generated site document, by its path relative to its generated directory (it contains a '.'). */
  datatype SiteDoc = SiteDoc(file: string, title: TitleResult)

  /** The ref of a generated document: its file name up to the last '.'. */
  function DocRef(file: string): string
    requires '.' in file
  {
    file[..LastIndexOf(file, '.')]
  }

  predicate DotInEveryFile(docs: seq<SiteDoc>)
  {
    forall k :: 0 <= k < |docs| ==> '.' in docs[k].file
  }

  /** One item per generated report, in order: the report's name and output name. */
  function ReportItems(reports: seq<ReportInfo>): (items: seq<TocItem>)
    ensures |items| == |reports|
    ensures forall k :: 0 <= k < |reports| ==>
      items[k] == TocItem(Some(reports[k].name), reports[k].outputName, [])
  {
    if reports == [] then [] else [TocItem(Some(reports[0].name), reports[0].outputName, [])] + ReportItems(reports[1..])
  }

  /** The output names of the reports, the refs already added. */
  function OutputNames(reports: seq<ReportInfo>): (names: seq<Option<string>>)
    ensures |names| == |reports|
    ensures forall k :: 0 <= k < |reports| ==> names[k] == reports[k].outputName
  {
    if reports == [] then [] else [reports[0].outputName] + OutputNames(reports[1..])
  }

  /**
   * Items for the generated site documents, in listing order: documents whose ref is a report's
   * output name are skipped without reading their title, documents without a title are skipped,
   * and the first IOException while reading a title ends the listing.
   */
  function SiteDocItems(docs: seq<SiteDoc>, added: seq<Option<string>>): seq<TocItem>
    requires DotInEveryFile(docs)
  {
    if docs == [] then []
    else
      var ref := DocRef(docs[0].file);
      if Some(ref) in added then SiteDocItems(docs[1..], added)
      else
        match docs[0].title
        case TitleIoError => []
        case NoTitle => SiteDocItems(docs[1..], added)
        case Title(t) => [TocItem(Some(t), Some(ref), [])] + SiteDocItems(docs[1..], added)
  }

  /**
   * Every site-document item names a listed document that has a title and whose ref is not a
   * report's output name; its ref is that document's name up to the last '.'.
   */
  lemma {:induction false} SiteDocItemsComeFromDocs(docs: seq<SiteDoc>, added: seq<Option<string>>)
    requires DotInEveryFile(docs)
    ensures forall it :: it in SiteDocItems(docs, added) ==>
      it.items == [] && it.ref.Some? && it.ref !in added
      && exists k :: 0 <= k < |docs| && docs[k].title.Title? && it.name == Some(docs[k].title.title)
                     && it.ref == Some(DocRef(docs[k].file))
  {
    if docs != [] {
      SiteDocItemsComeFromDocs(docs[1..], added);
      forall it | it in SiteDocItems(docs[1..], added)
        ensures exists k :: 0 <= k < |docs| && docs[k].title.Title? && it.name == Some(docs[k].title.title)
                            && it.ref == Some(DocRef(docs[k].file))
      {
        var k :| 0 <= k < |docs[1..]| && docs[1..][k].title.Title? && it.name == Some(docs[1..][k].title.title)
                 && it.ref == Some(DocRef(docs[1..][k].file));
        assert docs[k + 1] == docs[1..][k];
      }
    }
  }

  /**
   * Without read errors, every titled document whose ref is not a report's output name gets an
   * item; refs are not de-duplicated among the documents themselves.
   */
  lemma {:induction false} SiteDocItemsCount(docs: seq<SiteDoc>, added: seq<Option<string>>)
    requires DotInEveryFile(docs)
    requires forall k :: 0 <= k < |docs| ==> !docs[k].title.TitleIoError?
    ensures |SiteDocItems(docs, added)| == CountListed(docs, added)
  {
    if docs != [] {
      SiteDocItemsCount(docs[1..], added);
    }
  }

  /** The number of titled documents whose ref is not among `added`. */
  function CountListed(docs: seq<SiteDoc>, added: seq<Option<string>>): nat
    requires DotInEveryFile(docs)
  {
    if docs == [] then 0
    else (if docs[0].title.Title? && Some(DocRef(docs[0].file)) !in added then 1 else 0) + CountListed(docs[1..], added)
  }

  /** Two titled documents with the same ref (say `faq.html` and `faq.xml`) both get an item. */
  lemma SameRefTwice(base: string, ext1: string, ext2: string, title1: string, title2: string, added: seq<Option<string>>)
    requires '.' !in ext1 && '.' !in ext2 && Some(base) !in added
    ensures var docs := [SiteDoc(base + "." + ext1, Title(title1)), SiteDoc(base + "." + ext2, Title(title2))];
      DotInEveryFile(docs)
      && SiteDocItems(docs, added) == [TocItem(Some(title1), Some(base), []), TocItem(Some(title2), Some(base), [])]
  {
    var docs := [SiteDoc(base + "." + ext1, Title(title1)), SiteDoc(base + "." + ext2, Title(title2))];
    LastDotBeforeExtension(docs[0].file, base, ext1);
    LastDotBeforeExtension(docs[1].file, base, ext2);
    assert (base + "." + ext1)[|base|] == '.';
    assert (base + "." + ext2)[|base|] == '.';
    assert DocRef(docs[0].file) == base;
    assert DocRef(docs[1].file) == base;
    var tail := docs[1..];
    assert tail == [SiteDoc(base + "." + ext2, Title(title2))];
    assert tail[1..] == [];
    assert SiteDocItems(tail, added) == [TocItem(Some(title2), Some(base), [])];
  }

  /** The TOC entry for generated reports: the localized "Project Reports" name, ref `project-info`. */
  function ProjectInfoItem(name: string, reports: seq<ReportInfo>, docs: seq<SiteDoc>): TocItem
    requires DotInEveryFile(docs)
  {
    TocItem(Some(name), Some("project-info"), ReportItems(reports) + SiteDocItems(docs, OutputNames(reports)))
  }

  /** The first loop of `appendGeneratedReports`: one item per report, and the refs added. */
  method ReportEntries(reports: seq<ReportInfo>) returns (items: seq<TocItem>, addedRef: seq<Option<string>>)
    ensures items == ReportItems(reports)
    ensures addedRef == OutputNames(reports)
  {
    addedRef := [];
    items := [];
    var i := 0;
    while i < |reports|
      invariant 0 <= i <= |reports|
      invariant |items| == i && |addedRef| == i
      invariant forall k :: 0 <= k < i ==> items[k] == TocItem(Some(reports[k].name), reports[k].outputName, [])
      invariant forall k :: 0 <= k < i ==> addedRef[k] == reports[k].outputName
    {
      items := items + [TocItem(Some(reports[i].name), reports[i].outputName, [])];
      addedRef := addedRef + [reports[i].outputName];
      i := i + 1;
    }
  }

  /**
   * The second loop of `appendGeneratedReports`: the generated site documents not already added
   * and having a title, until the first IOException.
   */
  method SiteDocEntries(docs: seq<SiteDoc>, addedRef: seq<Option<string>>) returns (items: seq<TocItem>)
    requires DotInEveryFile(docs)
    ensures items == SiteDocItems(docs, addedRef)
  {
    items := [];
    var j := 0;
    while j < |docs|
      invariant 0 <= j <= |docs|
      invariant items + SiteDocItems(docs[j..], addedRef) == SiteDocItems(docs, addedRef)
    {
      assert docs[j..][1..] == docs[j + 1..];
      var ref := docs[j].file[..LastIndexOf(docs[j].file, '.')];
      if Some(ref) !in addedRef {
        var title := docs[j].title;
        if title.TitleIoError? {
          break;
        }
        if title.Title? {
          items := items + [TocItem(Some(title.title), Some(ref), [])];
        }
      }
      j := j + 1;
    }
  }

  // ----- Report plugins -----

  /** A `<reporting>` plugin: group id and artifact id. */
  datatype ReportPlugin = ReportPlugin(groupId: string, artifactId: string)

  const MavenPluginsGroupId: string := "org.apache.maven.plugins"
  const ProjectInfoReportsArtifactId: string := "maven-project-info-reports-plugin"

  /** The plugin added when missing: a new `ReportPlugin` takes the default Maven plugins group id. */
  const ProjectInfoReportsPlugin: ReportPlugin := ReportPlugin(MavenPluginsGroupId, ProjectInfoReportsArtifactId)

  predicate IsProjectInfoReports(p: ReportPlugin)
  {
    p.groupId == MavenPluginsGroupId && p.artifactId == ProjectInfoReportsArtifactId
  }

  /** The index of the first project-info-reports plugin, or |plugins| when there is none. */
  function FirstProjectInfoReports(plugins: seq<ReportPlugin>): (i: nat)
    ensures i <= |plugins|
    ensures forall k :: 0 <= k < i ==> !IsProjectInfoReports(plugins[k])
    ensures i < |plugins| ==> IsProjectInfoReports(plugins[i])
  {
    if plugins == [] || IsProjectInfoReports(plugins[0]) then 0 else 1 + FirstProjectInfoReports(plugins[1..])
  }

  /** The plugin list after `getReportingPlugins`. */
  function EffectivePlugins(plugins: seq<ReportPlugin>, excludeDefaults: bool): seq<ReportPlugin>
  {
    if !excludeDefaults && FirstProjectInfoReports(plugins) == |plugins| then plugins + [ProjectInfoReportsPlugin]
    else plugins
  }

  /**
   * The existing plugins stay first and in order, at most the default plugin is added at the end,
   * it is present afterwards unless defaults are excluded, and a second call adds nothing.
   */
  lemma EffectivePluginsProperties(plugins: seq<ReportPlugin>, excludeDefaults: bool)
    ensures var r := EffectivePlugins(plugins, excludeDefaults);
      r[..|plugins|] == plugins && |plugins| <= |r| <= |plugins| + 1
      && (|r| == |plugins| + 1 <==> !excludeDefaults && forall k :: 0 <= k < |plugins| ==> !IsProjectInfoReports(plugins[k]))
      && (!excludeDefaults ==> exists k :: 0 <= k < |r| && IsProjectInfoReports(r[k]))
      && EffectivePlugins(r, excludeDefaults) == r
  {
    var r := EffectivePlugins(plugins, excludeDefaults);
    if !excludeDefaults {
      if FirstProjectInfoReports(plugins) == |plugins| {
        assert IsProjectInfoReports(r[|plugins|]);
        assert FirstProjectInfoReports(r) == |plugins|;
      } else {
        assert IsProjectInfoReports(r[FirstProjectInfoReports(plugins)]);
      }
    }
  }

  /** The `<reporting>` section of the POM, whose plugin list is changed in place. */
  class Reporting {
    var plugins: seq<ReportPlugin>
    const excludeDefaults: bool

    constructor (plugins: seq<ReportPlugin>, excludeDefaults: bool)
      ensures this.plugins == plugins && this.excludeDefaults == excludeDefaults
    {
      this.plugins := plugins;
      this.excludeDefaults := excludeDefaults;
    }
  }

  /** `getReportingPlugins`: scans for the project-info-reports plugin and adds it to the live list when missing. */
  method GetReportingPlugins(reporting: Reporting) returns (result: seq<ReportPlugin>)
    modifies reporting
    ensures reporting.plugins == EffectivePlugins(old(reporting.plugins), reporting.excludeDefaults)
    ensures result == reporting.plugins
  {
    var hasProjectInfoReports := false;
    var i := 0;
    while i < |reporting.plugins|
      invariant 0 <= i <= |reporting.plugins|
      invariant i <= FirstProjectInfoReports(reporting.plugins)
      invariant !hasProjectInfoReports
    {
      var plugin := reporting.plugins[i];
      if plugin.groupId == MavenPluginsGroupId && plugin.artifactId == ProjectInfoReportsArtifactId {
        hasProjectInfoReports := true;
        break;
      }
      i := i + 1;
    }
    assert hasProjectInfoReports <==> FirstProjectInfoReports(reporting.plugins) < |reporting.plugins|;
    if !reporting.excludeDefaults && !hasProjectInfoReports {
      reporting.plugins := reporting.plugins + [ReportPlugin(MavenPluginsGroupId, ProjectInfoReportsArtifactId)];
    }
    result := reporting.plugins;
  }

  // ----- Writing generated reports -----

  const NestedTable: string := "<table><table"
  const SingleTable: string := "<table"

  /** The content `writeGeneratedReport` writes: one pass replacing `<table><table` by `<table`. */
  function FixedReport(content: string): string
  {
    Replace(content, NestedTable, SingleTable)
  }

  /** The fix-up never lengthens a report and leaves a report without nested tables alone. */
  lemma FixedReportProperties(content: string)
    ensures |FixedReport(content)| <= |content|
    ensures !Contains(content, NestedTable) ==> FixedReport(content) == content
  {
    ReplaceNeverGrows(content, NestedTable, SingleTable);
    if !Contains(content, NestedTable) {
      ReplaceWithoutOccurrence(content, NestedTable, SingleTable);
    }
  }

  /** One pass is not a fixpoint: three nested tables leave two. */
  lemma FixedReportNotAFixpoint()
    ensures FixedReport("<table><table><table") == "<table><table"
    ensures Contains(FixedReport("<table><table><table"), NestedTable)
  {
    var s := "<table><table><table";
    assert s[..13] == NestedTable;
    assert s[13..] == "><table";
    assert Replace("><table", NestedTable, SingleTable) == "><table";
    assert OccursAt("<table><table", NestedTable, 0);
  }

  /** `writeGeneratedReport`: null or empty content writes nothing, otherwise the fixed content replaces the file. */
  method WriteGeneratedReport(content: Option<string>, toFile: Path, fs: TextFiles)
    modifies fs
    ensures fs.contents == if IsEmpty(content) then old(fs.contents)
                           else old(fs.contents)[toFile := FixedReport(content.value)]
  {
    if content.None? || content.value == "" {
      return;
    }
    fs.contents := fs.contents[toFile := Replace(content.value, "<table><table", "<table")];
  }

  // ----- Copying the generated PDFs -----

  /** What `copyGeneratedPdf` does for one locale. */
  datatype PdfCopy =
    | NotFound(source: Path)                  // warned about and skipped
    | Moved(source: Path, destination: Path)  // copied to the output directory, then deleted
    | InPlace(destination: Path)              // output and working directory are the same

  /** Where a locale's PDF is rendered: its directory under the working directory. */
  function PdfSource(locale: Locale, defaultLocale: Locale, outputName: string, workingDirectory: Path): Path
  {
    Child(LocaleDirectory(workingDirectory, locale, defaultLocale), outputName)
  }

  /** Where a locale's PDF goes: its directory under the output directory. */
  function PdfDestination(locale: Locale, defaultLocale: Locale, outputName: string, outputDirectory: Path): Path
  {
    Child(LocaleDirectory(outputDirectory, locale, defaultLocale), outputName)
  }

  /** A source and a destination for one PDF. */
  datatype PdfPaths = PdfPaths(source: Path, destination: Path)

  /** The source and destination of every locale's PDF, in order. */
  function LocalePdfPaths(locales: seq<Locale>, defaultLocale: Locale, outputName: string, workingDirectory: Path,
                          outputDirectory: Path): (paths: seq<PdfPaths>)
    ensures |paths| == |locales|
    ensures forall k :: 0 <= k < |locales| ==>
      paths[k] == PdfPaths(PdfSource(locales[k], defaultLocale, outputName, workingDirectory),
                           PdfDestination(locales[k], defaultLocale, outputName, outputDirectory))
  {
    seq(|locales|, k requires 0 <= k < |locales| =>
      PdfPaths(PdfSource(locales[k], defaultLocale, outputName, workingDirectory),
               PdfDestination(locales[k], defaultLocale, outputName, outputDirectory)))
  }

  /** The step for one PDF, given the PDF files present when it is taken. */
  function PdfCopyFor(paths: PdfPaths, requireCopy: bool, pdfs: set<Path>): PdfCopy
  {
    if paths.source !in pdfs then NotFound(paths.source)
    else if requireCopy then Moved(paths.source, paths.destination)
    else InPlace(paths.destination)
  }

  /** The PDF files present after a step: a moved PDF is copied, then its source deleted. */
  function PdfsAfter(copy: PdfCopy, pdfs: set<Path>): set<Path>
  {
    if copy.Moved? then pdfs - {copy.source} + {copy.destination} else pdfs
  }

  /** The steps for the PDFs in order, starting from the PDF files `pdfs` present. */
  function PdfSteps(paths: seq<PdfPaths>, requireCopy: bool, pdfs: set<Path>): (copies: seq<PdfCopy>)
    ensures |copies| == |paths|
  {
    if paths == [] then []
    else
      var copy := PdfCopyFor(paths[0], requireCopy, pdfs);
      [copy] + PdfSteps(paths[1..], requireCopy, PdfsAfter(copy, pdfs))
  }

  /**
   * `copyGeneratedPdf`'s steps for all locales, in order, starting from the PDF files `pdfs` the
   * renderer left; a copy is required when the output and working directories differ.
   */
  function PdfCopies(locales: seq<Locale>, defaultLocale: Locale, outputName: string, workingDirectory: Path,
                     outputDirectory: Path, pdfs: set<Path>): (copies: seq<PdfCopy>)
    ensures |copies| == |locales|
  {
    PdfSteps(LocalePdfPaths(locales, defaultLocale, outputName, workingDirectory, outputDirectory),
             outputDirectory != workingDirectory, pdfs)
  }

  /** The first step is taken on the PDFs present; the rest start from what it leaves. */
  lemma PdfStepsTail(paths: seq<PdfPaths>, requireCopy: bool, pdfs: set<Path>)
    requires |paths| > 0
    ensures var copy := PdfCopyFor(paths[0], requireCopy, pdfs);
      var copies := PdfSteps(paths, requireCopy, pdfs);
      var rest := PdfSteps(paths[1..], requireCopy, PdfsAfter(copy, pdfs));
      copies == [copy] + rest && copies[0] == copy && forall m :: 0 <= m < |rest| ==> rest[m] == copies[m + 1]
  {
  }

  /** One turn of the copy loop: the step on the PDFs present, then the rest from what it leaves. */
  lemma CopyStep(paths: seq<PdfPaths>, i: nat, copies: seq<PdfCopy>, requireCopy: bool, pdfs: set<Path>,
                 rendered: set<Path>)
    requires i < |paths|
    requires copies + PdfSteps(paths[i..], requireCopy, pdfs) == PdfSteps(paths, requireCopy, rendered)
    ensures var copy := PdfCopyFor(paths[i], requireCopy, pdfs);
      (copies + [copy]) + PdfSteps(paths[i + 1..], requireCopy, PdfsAfter(copy, pdfs))
      == PdfSteps(paths, requireCopy, rendered)
  {
    assert paths[i..][0] == paths[i] && paths[i..][1..] == paths[i + 1..];
    PdfStepsTail(paths[i..], requireCopy, pdfs);
  }

  /** A step's paths are its PDF's, and a PDF moves only when a copy is required. */
  predicate StepOf(copy: PdfCopy, paths: PdfPaths, requireCopy: bool)
  {
    match copy
    case NotFound(source) => source == paths.source
    case Moved(source, destination) => requireCopy && source == paths.source && destination == paths.destination
    case InPlace(destination) => !requireCopy && destination == paths.destination
  }

  /** Every step has its own PDF's paths, whatever PDFs are present. */
  lemma {:induction false} PdfStepsPaths(paths: seq<PdfPaths>, requireCopy: bool, pdfs: set<Path>)
    ensures forall k :: 0 <= k < |paths| ==> StepOf(PdfSteps(paths, requireCopy, pdfs)[k], paths[k], requireCopy)
    decreases |paths|
  {
    if paths != [] {
      var copy := PdfCopyFor(paths[0], requireCopy, pdfs);
      var rest := PdfSteps(paths[1..], requireCopy, PdfsAfter(copy, pdfs));
      PdfStepsTail(paths, requireCopy, pdfs);
      PdfStepsPaths(paths[1..], requireCopy, PdfsAfter(copy, pdfs));
      forall k | 1 <= k < |paths|
        ensures StepOf(PdfSteps(paths, requireCopy, pdfs)[k], paths[k], requireCopy)
      {
        assert paths[k] == paths[1..][k - 1];
        assert PdfSteps(paths, requireCopy, pdfs)[k] == rest[k - 1];
      }
    }
  }

  /** A step does not put a PDF at `p`. */
  predicate NotMovedOnto(copy: PdfCopy, p: Path)
  {
    !copy.Moved? || copy.destination != p
  }

  /**
   * A PDF that is absent stays absent until some step moves a PDF there: a step looking for it
   * before then does not find it.
   */
  lemma {:induction false} AbsentUntilMovedThere(paths: seq<PdfPaths>, requireCopy: bool, pdfs: set<Path>,
                                                 p: Path, j: nat)
    requires j < |paths| && p !in pdfs && paths[j].source == p
    requires var copies := PdfSteps(paths, requireCopy, pdfs);
      forall m :: 0 <= m < j ==> NotMovedOnto(copies[m], p)
    ensures PdfSteps(paths, requireCopy, pdfs)[j].NotFound?
    decreases j
  {
    var copies := PdfSteps(paths, requireCopy, pdfs);
    var copy := PdfCopyFor(paths[0], requireCopy, pdfs);
    var after := PdfsAfter(copy, pdfs);
    var rest := PdfSteps(paths[1..], requireCopy, after);
    PdfStepsTail(paths, requireCopy, pdfs);
    if j > 0 {
      assert NotMovedOnto(copy, p);
      assert p !in after;
      forall m | 0 <= m < j - 1
        ensures NotMovedOnto(rest[m], p)
      {
        assert rest[m] == copies[m + 1];
      }
      assert paths[1..][j - 1] == paths[j];
      AbsentUntilMovedThere(paths[1..], requireCopy, after, p, j - 1);
      assert copies[j] == rest[j - 1];
    }
  }

  /**
   * A moved PDF is deleted: a later step looking for the same file finds nothing, unless a step
   * in between has moved another PDF onto that file.
   */
  lemma {:induction false} MovedSourceGone(paths: seq<PdfPaths>, requireCopy: bool, pdfs: set<Path>, i: nat, j: nat)
    requires i < j < |paths|
    requires paths[i].source != paths[i].destination
    requires PdfSteps(paths, requireCopy, pdfs)[i].Moved?
    requires paths[j].source == paths[i].source
    requires var copies := PdfSteps(paths, requireCopy, pdfs);
      forall m :: i < m < j ==> NotMovedOnto(copies[m], paths[i].source)
    ensures PdfSteps(paths, requireCopy, pdfs)[j].NotFound?
    decreases i
  {
    var copies := PdfSteps(paths, requireCopy, pdfs);
    var copy := PdfCopyFor(paths[0], requireCopy, pdfs);
    var after := PdfsAfter(copy, pdfs);
    var rest := PdfSteps(paths[1..], requireCopy, after);
    var p := paths[i].source;
    PdfStepsTail(paths, requireCopy, pdfs);
    assert rest[j - 1] == copies[j] && paths[1..][j - 1] == paths[j];
    forall m | i - 1 < m < j - 1
      ensures NotMovedOnto(rest[m], p)
    {
      assert rest[m] == copies[m + 1];
    }
    if i == 0 {
      assert p !in after;
      AbsentUntilMovedThere(paths[1..], requireCopy, after, p, j - 1);
    } else {
      assert rest[i - 1] == copies[i] && paths[1..][i - 1] == paths[i];
      MovedSourceGone(paths[1..], requireCopy, after, i - 1, j - 1);
    }
  }

  /**
   * Locales of different languages never move their PDFs to the same file, and when the two
   * directories are the same nothing is moved.
   */
  lemma PdfCopiesDistinct(locales: seq<Locale>, defaultLocale: Locale, outputName: string, workingDirectory: Path,
                          outputDirectory: Path, pdfs: set<Path>, i: nat, j: nat)
    requires i < |locales| && j < |locales| && locales[i].language != locales[j].language
    ensures var copies := PdfCopies(locales, defaultLocale, outputName, workingDirectory, outputDirectory, pdfs);
      copies[i].Moved? && copies[j].Moved? ==> copies[i].destination != copies[j].destination
    ensures outputDirectory == workingDirectory ==>
      forall k :: 0 <= k < |locales| ==>
        !PdfCopies(locales, defaultLocale, outputName, workingDirectory, outputDirectory, pdfs)[k].Moved?
  {
    var paths := LocalePdfPaths(locales, defaultLocale, outputName, workingDirectory, outputDirectory);
    PdfStepsPaths(paths, outputDirectory != workingDirectory, pdfs);
    var d1 := LocaleDirectory(outputDirectory, locales[i], defaultLocale);
    var d2 := LocaleDirectory(outputDirectory, locales[j], defaultLocale);
    if Child(d1, outputName) == Child(d2, outputName) {
      ChildParentInjective(d1, d2, outputName);
      LocaleDirectoryInjective(outputDirectory, locales[i], locales[j], defaultLocale);
    }
  }

  /** Between two different directories a locale's PDF never goes where it came from. */
  lemma DestinationIsNotSource(locale: Locale, defaultLocale: Locale, outputName: string, workingDirectory: Path,
                               outputDirectory: Path)
    requires outputDirectory != workingDirectory
    ensures PdfDestination(locale, defaultLocale, outputName, outputDirectory)
         != PdfSource(locale, defaultLocale, outputName, workingDirectory)
  {
    var out := LocaleDirectory(outputDirectory, locale, defaultLocale);
    var work := LocaleDirectory(workingDirectory, locale, defaultLocale);
    if Child(out, outputName) == Child(work, outputName) {
      ChildParentInjective(out, work, outputName);
      if locale.language != defaultLocale.language {
        ChildParentInjective(outputDirectory, workingDirectory, locale.language);
      }
    }
  }

  /**
   * Two consecutive locales of one language share one PDF: once the first has moved it, the
   * second finds nothing and is skipped.
   */
  lemma SameLanguageMovedOnce(locales: seq<Locale>, defaultLocale: Locale, outputName: string,
                              workingDirectory: Path, outputDirectory: Path, pdfs: set<Path>, i: nat)
    requires i + 1 < |locales| && locales[i].language == locales[i + 1].language
    requires PdfCopies(locales, defaultLocale, outputName, workingDirectory, outputDirectory, pdfs)[i].Moved?
    ensures PdfCopies(locales, defaultLocale, outputName, workingDirectory, outputDirectory, pdfs)[i + 1].NotFound?
  {
    var paths := LocalePdfPaths(locales, defaultLocale, outputName, workingDirectory, outputDirectory);
    var requireCopy := outputDirectory != workingDirectory;
    PdfStepsPaths(paths, requireCopy, pdfs);
    DestinationIsNotSource(locales[i], defaultLocale, outputName, workingDirectory, outputDirectory);
    MovedSourceGone(paths, requireCopy, pdfs, i, i + 1);
  }

  /** When no locale's PDF goes where some locale's PDF is rendered, no file is moved twice. */
  lemma NoSourceMovedTwice(locales: seq<Locale>, defaultLocale: Locale, outputName: string,
                           workingDirectory: Path, outputDirectory: Path, pdfs: set<Path>, i: nat, j: nat)
    requires i < j < |locales|
    requires forall k, l :: 0 <= k < |locales| && 0 <= l < |locales| ==>
      PdfDestination(locales[k], defaultLocale, outputName, outputDirectory)
      != PdfSource(locales[l], defaultLocale, outputName, workingDirectory)
    ensures var copies := PdfCopies(locales, defaultLocale, outputName, workingDirectory, outputDirectory, pdfs);
      copies[i].Moved? && copies[j].Moved? ==> copies[i].source != copies[j].source
  {
    var paths := LocalePdfPaths(locales, defaultLocale, outputName, workingDirectory, outputDirectory);
    var requireCopy := outputDirectory != workingDirectory;
    var copies := PdfSteps(paths, requireCopy, pdfs);
    if copies[i].Moved? && copies[j].Moved? && copies[i].source == copies[j].source {
      PdfStepsPaths(paths, requireCopy, pdfs);
      assert StepOf(copies[i], paths[i], requireCopy) && StepOf(copies[j], paths[j], requireCopy);
      var p := paths[i].source;
      assert paths[j].source == p;
      forall m | i < m < j
        ensures NotMovedOnto(copies[m], p)
      {
        assert StepOf(copies[m], paths[m], requireCopy);
        assert paths[m].destination != paths[i].source;
      }
      assert paths[i].destination != paths[i].source;
      MovedSourceGone(paths, requireCopy, pdfs, i, j);
    }
  }

  // ----- The mojo -----

  /** Why `execute` fails with a MojoExecutionException. */
  datatype MojoError =
    | ErrorReadingDescriptor(cause: ReadError)  // the descriptor did not parse
    | ErrorOpeningDescriptor(cause: ReadError)  // an IOException while reading or interpolating it
    | NullOutputName                            // the model has no output name: `trim()` on null
    | ErrorWithSiteDescriptor(failure: SiteDescriptorFailure)  // `site.xml` exists but cannot be used

  /** Why `getDefaultDecorationModel` cannot use an existing `site.xml`. */
  datatype SiteDescriptorFailure =
    | SiteParseFailed          // an XmlPullParserException
    | SiteReadFailed           // an IOException
    | SiteInterpolationFailed  // a SiteToolException

  /** The message of the MojoExecutionException thrown for each failure. */
  function SiteDescriptorMessage(f: SiteDescriptorFailure): string
  {
    match f
    case SiteParseFailed => "Error parsing site descriptor"
    case SiteReadFailed => "Error reading site descriptor"
    case SiteInterpolationFailed => "Error when interpoling site descriptor"
  }

  function DescriptorError(e: ReadError): MojoError
  {
    if e.ParseFailed? then ErrorReadingDescriptor(e) else ErrorOpeningDescriptor(e)
  }

  /** What the plugin's collaborators supply; each is a parameter of the model. */
  datatype Collaborators = Collaborators(
    siteLocales: seq<Locale>,                          // `siteTool.getSiteLocales(locales)`
    i18n: (Locale, string) -> string,                  // `i18n.getString("pdf-plugin", locale, key)`
    builtModel: ModelData,                             // `DocumentModelBuilder`'s default model
    siteDescriptor: Option<SiteDescriptorFailure>,     // reading `site.xml`: None when absent or usable
    reports: map<Locale, seq<ReportInfo>>,             // the reports generated for each locale
    siteDocs: map<Locale, seq<SiteDoc>>,               // the generated site documents listed for each locale
    renderedPdfs: set<Path>,                           // the PDF files the renderer wrote
    environment: string -> Option<string>,             // environment variables
    date: string -> Option<string>,                    // the date bean's properties
    interpolate: (string, string -> Option<string>) -> Result<string, string>,
    parse: (string, bool) -> Result<ModelData, string>)

  /** The model's state as the data it holds. */
  function Snapshot(m: DocumentModel): ModelData
    reads m, m.toc
  {
    ModelData(m.meta, m.coverType, m.outputName, m.toc.name, m.toc.items)
  }

  /** The plugin's `pdf` goal. */
  class PdfMojo {
    const implementation: string
    var generateToc: string
    const aggregate: bool
    const includeReports: bool
    const pluginVersion: Option<string>
    const workingDirectory: Path
    const outputDirectory: Path
    const docDescriptor: Descriptor
    const project: ProjectView
    const env: Collaborators

    const files: TextFiles
    const system: SystemProperties
    const store: TocStore

    var docRenderer: Option<Renderer>
    var localesList: Option<seq<Locale>>
    var defaultLocale: Option<Locale>

    /** The site tool always reports at least one locale, and every listed generated file has an extension. */
    predicate Settled()
    {
      |env.siteLocales| > 0
      && forall l :: l in env.siteDocs ==> DotInEveryFile(env.siteDocs[l])
    }

    /** The caches only ever hold the site tool's answer. */
    predicate Valid()
      reads this
    {
      Settled()
      && (localesList.Some? ==> localesList.value == env.siteLocales)
      && (defaultLocale.Some? ==> defaultLocale.value == env.siteLocales[0])
    }

    constructor (implementation: string, generateToc: string, aggregate: bool, includeReports: bool,
                 pluginVersion: Option<string>, workingDirectory: Path, outputDirectory: Path,
                 docDescriptor: Descriptor, project: ProjectView, env: Collaborators,
                 files: TextFiles, system: SystemProperties, store: TocStore)
      requires |env.siteLocales| > 0
      requires forall l :: l in env.siteDocs ==> DotInEveryFile(env.siteDocs[l])
      ensures Valid() && localesList.None? && defaultLocale.None? && docRenderer.None?
      ensures this.implementation == implementation && this.generateToc == generateToc
      ensures this.aggregate == aggregate && this.includeReports == includeReports
      ensures this.pluginVersion == pluginVersion && this.workingDirectory == workingDirectory
      ensures this.outputDirectory == outputDirectory && this.docDescriptor == docDescriptor
      ensures this.project == project && this.env == env
      ensures this.files == files && this.system == system && this.store == store
    {
      this.implementation := implementation;
      this.generateToc := generateToc;
      this.aggregate := aggregate;
      this.includeReports := includeReports;
      this.pluginVersion := pluginVersion;
      this.workingDirectory := workingDirectory;
      this.outputDirectory := outputDirectory;
      this.docDescriptor := docDescriptor;
      this.project := project;
      this.env := env;
      this.files := files;
      this.system := system;
      this.store := store;
      this.docRenderer := None;
      this.localesList := None;
      this.defaultLocale := None;
    }

    // ----- Specification functions -----

    function DefaultLocale(): Locale
      requires |env.siteLocales| > 0
    {
      env.siteLocales[0]
    }

    function Generator(): string
    {
      DefaultGenerator(pluginVersion, implementation)
    }

    function ReportsFor(locale: Locale): seq<ReportInfo>
    {
      if locale in env.reports then env.reports[locale] else []
    }

    function SiteDocsFor(locale: Locale): seq<SiteDoc>
    {
      if locale in env.siteDocs then env.siteDocs[locale] else []
    }

    /** The items `appendGeneratedReports` adds for a locale: one `project-info` entry, or none. */
    function AppendedItems(locale: Locale): seq<TocItem>
      requires Settled()
    {
      if includeReports && |ReportsFor(locale)| > 0 then
        [ProjectInfoItem(env.i18n(locale, "toc.project-info.item"), ReportsFor(locale), SiteDocsFor(locale))]
      else []
    }

    /** The model read from the descriptor for a locale, with its meta data defaulted. */
    function DescriptorModel(locale: Locale, contents: map<Path, string>, properties: map<string, string>)
      : Result<ModelData, MojoError>
    {
      match ReadOutcome(docDescriptor, Some(locale), Some(project), contents, properties,
                        env.environment, env.date, env.interpolate, env.parse)
      case Failure(e) => Failure(DescriptorError(e))
      case Success(m) =>
        Success(ModelData(Some(DefaultedMeta(m.meta, locale.language, Generator())),
                          m.coverType, m.outputName, m.tocName, m.tocItems))
    }

    /**
     * The model `getDocumentModel` returns for a locale: the descriptor's when the descriptor file
     * exists, otherwise the built default model with the generator, the locale's language, and the
     * cover type and TOC name in the default locale; then the generated-reports entry.
     */
    function ExpectedModel(locale: Locale, contents: map<Path, string>, properties: map<string, string>)
      : Result<ModelData, MojoError>
      requires Settled()
    {
      if docDescriptor.Path() in contents then
        match DescriptorModel(locale, contents, properties)
        case Failure(e) => Failure(e)
        case Success(m) => Success(m.(tocItems := m.tocItems + AppendedItems(locale)))
      else if DecorationFailure().Some? then Failure(DecorationFailure().value)
      else
        var m := BuiltModel(locale);
        Success(m.(tocItems := m.tocItems + AppendedItems(locale)))
    }

    /**
     * `getDefaultDecorationModel`: an existing `site.xml` that cannot be read, interpolated or
     * parsed throws; otherwise its decoration, or null when it is absent, goes to the builder. A
     * throw caches nothing, so every later call throws the same.
     */
    function DecorationFailure(): (failure: Option<MojoError>)
      ensures failure.Some? <==> env.siteDescriptor.Some?
      ensures failure.Some? ==> failure.value == ErrorWithSiteDescriptor(env.siteDescriptor.value)
    {
      match env.siteDescriptor
      case None => None
      case Some(f) => Some(ErrorWithSiteDescriptor(f))
    }

    /**
     * The project's default model for a locale, before the generated reports: the generator and
     * the locale's language, with the cover type and TOC name in the default locale.
     */
    function BuiltModel(locale: Locale): ModelData
      requires Settled()
    {
      ModelData(Some(Meta(Some(locale.language), Some(Generator()))),
                Some(env.i18n(DefaultLocale(), "toc.type")), env.builtModel.outputName,
                Some(env.i18n(DefaultLocale(), "toc.title")), env.builtModel.tocItems)
    }

    /** Reading the descriptor again, after the project properties were merged in, reads the same model. */
    lemma ExpectedModelAfterMerge(locale: Locale, contents: map<Path, string>, properties: map<string, string>)
      requires Valid()
      ensures ExpectedModel(locale, contents, Merged(properties, Some(project)))
           == ExpectedModel(locale, contents, properties)
    {
      MergedIdempotent(properties, Some(project));
    }

    /**
     * Every model `getDocumentModel` returns has a language and a generator and ends with the
     * generated-reports entry; without a descriptor it succeeds exactly when `site.xml` can be
     * read (the builder path reads the decoration first), and then in the locale's language with
     * the default generator; with one it never fails for want of the file, since the reader falls
     * back to the descriptor itself.
     */
    lemma ExpectedModelProperties(locale: Locale, contents: map<Path, string>, properties: map<string, string>)
      requires Settled()
      ensures var r := ExpectedModel(locale, contents, properties);
        r.Success? ==> r.value.meta.Some? && r.value.meta.value.language.Some? && r.value.meta.value.generator.Some?
      ensures var r := ExpectedModel(locale, contents, properties);
        r.Success? ==> (|AppendedItems(locale)| <= |r.value.tocItems|
          && r.value.tocItems[|r.value.tocItems| - |AppendedItems(locale)|..] == AppendedItems(locale))
      ensures var r := ExpectedModel(locale, contents, properties);
        docDescriptor.Path() !in contents ==>
          (r.Success? <==> env.siteDescriptor.None?)
          && (r.Success? ==> r.value.meta == Some(Meta(Some(locale.language), Some(Generator()))))
      ensures var r := ExpectedModel(locale, contents, properties);
        r.Failure? && docDescriptor.Path() in contents ==>
          (r.error.ErrorReadingDescriptor? || r.error.ErrorOpeningDescriptor?) && !r.error.cause.ReadFailed?
      ensures var r := ExpectedModel(locale, contents, properties);
        r.Failure? && docDescriptor.Path() !in contents ==> Some(r.error) == DecorationFailure()
    {
      var r := ExpectedModel(locale, contents, properties);
      if docDescriptor.Path() in contents {
        var read := ReadOutcome(docDescriptor, Some(locale), Some(project), contents, properties,
                                env.environment, env.date, env.interpolate, env.parse);
        ReadOutcomeCases(docDescriptor, Some(locale), Some(project), contents, properties,
                         env.environment, env.date, env.interpolate, env.parse);
        if read.Success? {
          var m := read.value;
          DefaultedMetaProperties(m.meta, locale.language, Generator());
          assert r.value.tocItems == m.tocItems + AppendedItems(locale);
        }
      } else if r.Success? {
        assert r.value.tocItems == env.builtModel.tocItems + AppendedItems(locale);
      }
    }

    /** The first locale, in order, whose model cannot be built. */
    function FirstFailure(locales: seq<Locale>, contents: map<Path, string>, properties: map<string, string>)
      : Option<MojoError>
      requires Settled()
    {
      if locales == [] then None
      else
        match ExpectedModel(locales[0], contents, properties)
        case Failure(e) => Some(e)
        case Success(_) => FirstFailure(locales[1..], contents, properties)
    }

    /** No failure exactly when every locale's model builds; a failure is some locale's own error. */
    lemma {:induction false} FirstFailureIff(locales: seq<Locale>, contents: map<Path, string>,
                                             properties: map<string, string>)
      requires Settled()
      ensures FirstFailure(locales, contents, properties).None?
          <==> forall k :: 0 <= k < |locales| ==> ExpectedModel(locales[k], contents, properties).Success?
      ensures FirstFailure(locales, contents, properties).Some? ==>
        exists k :: 0 <= k < |locales|
          && ExpectedModel(locales[k], contents, properties) == Failure(FirstFailure(locales, contents, properties).value)
    {
      if locales != [] {
        FirstFailureIff(locales[1..], contents, properties);
        forall k | 1 <= k < |locales|
          ensures ExpectedModel(locales[k], contents, properties) == ExpectedModel(locales[1..][k - 1], contents, properties)
        {
        }
        if ExpectedModel(locales[0], contents, properties).Success? {
          if FirstFailure(locales, contents, properties).Some? {
            var k :| 0 <= k < |locales[1..]|
              && ExpectedModel(locales[1..][k], contents, properties)
                 == Failure(FirstFailure(locales, contents, properties).value);
            assert locales[1..][k] == locales[k + 1];
          }
        }
      }
    }

    /** The slots of the TOC store outside this mojo's working directory. */
    function OtherSlots(slots: map<Path, TocNode>): map<Path, TocNode>
    {
      slots - {TocFile(workingDirectory)}
    }

    // ----- Methods -----

    /** `init`: selects the renderer and normalises `generateTOC`. */
    method Init()
      requires Valid()
      modifies this
      ensures Valid()
      ensures docRenderer == Some(SelectRenderer(implementation))
      ensures generateToc == NormalizedGenerateToc(old(generateToc))
      ensures localesList == old(localesList) && defaultLocale == old(defaultLocale)
    {
      if EqualsIgnoreCase(implementation, "fo") {
        docRenderer := Some(FoRenderer);
      } else if EqualsIgnoreCase(implementation, "itext") {
        docRenderer := Some(ITextRenderer);
      } else {
        docRenderer := Some(FoRenderer);
      }
      if !(EqualsIgnoreCase(generateToc, "none") || EqualsIgnoreCase(generateToc, "start")
           || EqualsIgnoreCase(generateToc, "end")) {
        generateToc := "start";
      }
    }

    /** `getAvailableLocales`: asks the site tool once and caches the answer. */
    method GetAvailableLocales() returns (locales: seq<Locale>)
      requires Valid()
      modifies this
      ensures Valid()
      ensures locales == env.siteLocales && localesList == Some(env.siteLocales)
      ensures defaultLocale == old(defaultLocale)
      ensures docRenderer == old(docRenderer) && generateToc == old(generateToc)
    {
      if localesList.None? {
        localesList := Some(env.siteLocales);
      }
      locales := localesList.value;
    }

    /** `getDefaultLocale`: the first available locale, computed once and cached. */
    method GetDefaultLocale() returns (locale: Locale)
      requires Valid()
      modifies this
      ensures Valid()
      ensures locale == env.siteLocales[0] && defaultLocale == Some(locale)
      ensures docRenderer == old(docRenderer) && generateToc == old(generateToc)
    {
      if defaultLocale.None? {
        var locales := GetAvailableLocales();
        defaultLocale := Some(locales[0]);
      }
      locale := defaultLocale.value;
    }

    /** `getDocumentModelFromDescriptor`: reads the descriptor, then fills in missing meta data. */
    method GetDocumentModelFromDescriptor(locale: Locale) returns (r: Result<DocumentModel, MojoError>)
      modifies system
      ensures system.properties == Merged(old(system.properties), Some(project))
      ensures r.Failure? ==> DescriptorModel(locale, files.contents, old(system.properties)) == Failure(r.error)
      ensures r.Success? ==> fresh(r.value) && fresh(r.value.toc)
      ensures r.Success? ==>
        DescriptorModel(locale, files.contents, old(system.properties)) == Success(Snapshot(r.value))
    {
      var reader := new Reader(Some(project), Some(locale));
      var read := reader.ReadAndFilterDocumentDescriptor(docDescriptor, files, system,
                                                         env.environment, env.date, env.interpolate, env.parse);
      if read.Failure? {
        return Failure(DescriptorError(read.error));
      }
      var model := new DocumentModel(read.value);
      if model.meta.None? {
        model.meta := Some(Meta(None, None));
      }
      if IsEmpty(model.meta.value.language) {
        model.meta := Some(model.meta.value.(language := Some(locale.language)));
      }
      if IsEmpty(model.meta.value.generator) {
        model.meta := Some(model.meta.value.(generator := Some(DefaultGenerator(pluginVersion, implementation))));
      }
      r := Success(model);
    }

    /**
     * `appendGeneratedReports`: when reports are included and some were generated for the locale,
     * appends one `project-info` item holding the report items, then the generated site documents.
     */
    method AppendGeneratedReports(model: DocumentModel, locale: Locale)
      requires Valid()
      modifies model.toc
      ensures model.toc.items == old(model.toc.items) + AppendedItems(locale)
      ensures model.toc.name == old(model.toc.name)
    {
      if !includeReports {
        return;
      }
      var reports := ReportsFor(locale);
      if |reports| == 0 {
        return;
      }
      var name := env.i18n(locale, "toc.project-info.item");
      var items, addedRef := ReportEntries(reports);
      var siteItems := SiteDocEntries(SiteDocsFor(locale), addedRef);
      items := items + siteItems;
      model.toc.AddItem(TocItem(Some(name), Some("project-info"), items));
    }

    /** The builder path of `getDocumentModel`, up to the generated reports. */
    method NewBuiltModel(locale: Locale) returns (r: Result<DocumentModel, MojoError>)
      requires Valid()
      modifies this
      ensures Valid()
      ensures docRenderer == old(docRenderer) && generateToc == old(generateToc)
      ensures r.Failure? <==> env.siteDescriptor.Some?
      ensures r.Failure? ==> Some(r.error) == DecorationFailure()
      ensures r.Success? ==> fresh(r.value) && fresh(r.value.toc) && Snapshot(r.value) == BuiltModel(locale)
    {
      var defaultLocale := GetDefaultLocale();
      var decoration := DecorationFailure();
      if decoration.Some? {
        return Failure(decoration.value);
      }
      var model := new DocumentModel(env.builtModel);
      // The builder always supplies a meta whose two properties are then both overwritten.
      model.meta := Some(Meta(Some(locale.language), Some(DefaultGenerator(pluginVersion, implementation))));
      model.coverType := Some(env.i18n(defaultLocale, "toc.type"));
      model.toc.name := Some(env.i18n(defaultLocale, "toc.title"));
      r := Success(model);
    }

    /**
     * `getDocumentModel`: builds the locale's model from the descriptor when it exists, or from the
     * project otherwise, appends the generated reports, and saves the TOC to the working directory.
     */
    method GetDocumentModel(locale: Locale) returns (r: Result<DocumentModel, MojoError>)
      requires Valid()
      modifies this, system, store
      ensures Valid()
      ensures docRenderer == old(docRenderer) && generateToc == old(generateToc)
      ensures system.properties == old(system.properties)
           || system.properties == Merged(old(system.properties), Some(project))
      ensures r.Failure? ==> ExpectedModel(locale, files.contents, old(system.properties)) == Failure(r.error)
      ensures r.Failure? ==> store.files == old(store.files)
      ensures r.Success? ==> fresh(r.value) && fresh(r.value.toc)
      ensures r.Success? ==>
        ExpectedModel(locale, files.contents, old(system.properties)) == Success(Snapshot(r.value))
      ensures r.Success? ==>
        store.files == Saved(old(store.files), workingDirectory, EncodeToc(r.value.toc.name, r.value.toc.items))
    {
      if docDescriptor.Path() in files.contents {
        var read := GetDocumentModelFromDescriptor(locale);
        if read.Failure? {
          return Failure(read.error);
        }
        var doc := read.value;
        AppendGeneratedReports(doc, locale);
        store.SaveToc(workingDirectory, doc.toc, locale);
        return Success(doc);
      }

      var built := NewBuiltModel(locale);
      if built.Failure? {
        return Failure(built.error);
      }
      var model := built.value;
      AppendGeneratedReports(model, locale);
      store.SaveToc(workingDirectory, model.toc, locale);
      r := Success(model);
    }

    /** The tree `saveTOC` writes for a model. */
    function TocTree(m: ModelData): TocNode
    {
      EncodeToc(m.tocName, m.tocItems)
    }

    /**
     * What `copyGeneratedPdf` yields: the default locale's model must build and have an output
     * name, which gets a `.pdf` suffix; then one copy step per available locale.
     */
    function CopyOutcome(contents: map<Path, string>, properties: map<string, string>)
      : Result<seq<PdfCopy>, MojoError>
      requires Settled()
    {
      match ExpectedModel(DefaultLocale(), contents, properties)
      case Failure(e) => Failure(e)
      case Success(m) =>
        if m.outputName.None? then Failure(NullOutputName)
        else Success(PdfCopies(env.siteLocales, DefaultLocale(), PdfOutputName(m.outputName.value),
                               workingDirectory, outputDirectory, env.renderedPdfs))
    }

    /**
     * What `generatePdf` throws: the decoration's failure, which `copyResources` meets on the first
     * locale; otherwise, when aggregating, the first locale whose model cannot be built.
     */
    function GenerationFailure(contents: map<Path, string>, properties: map<string, string>): Option<MojoError>
      requires Settled()
    {
      if DecorationFailure().Some? then DecorationFailure()
      else if aggregate then FirstFailure(env.siteLocales, contents, properties)
      else None
    }

    /**
     * Generation succeeds exactly when `site.xml` is usable and, when aggregating, every locale's
     * model builds; a failure is the decoration's or some locale's own.
     */
    lemma GenerationFailureCases(contents: map<Path, string>, properties: map<string, string>)
      requires Settled()
      ensures GenerationFailure(contents, properties).None? <==>
        env.siteDescriptor.None?
        && (aggregate ==> forall k :: 0 <= k < |env.siteLocales| ==>
                            ExpectedModel(env.siteLocales[k], contents, properties).Success?)
      ensures GenerationFailure(contents, properties).Some? ==>
        GenerationFailure(contents, properties) == DecorationFailure()
        || exists k :: 0 <= k < |env.siteLocales|
             && ExpectedModel(env.siteLocales[k], contents, properties)
                == Failure(GenerationFailure(contents, properties).value)
    {
      FirstFailureIff(env.siteLocales, contents, properties);
    }

    /** What `execute` yields: the generation failure if any, else the copy outcome. */
    function ExecuteOutcome(contents: map<Path, string>, properties: map<string, string>)
      : Result<seq<PdfCopy>, MojoError>
      requires Settled()
    {
      var failure := GenerationFailure(contents, properties);
      if failure.Some? then Failure(failure.value) else CopyOutcome(contents, properties)
    }

    /**
     * The model of one turn of `generatePdf`: `copyResources` first reads the decoration, whose
     * failure ends the goal; then, with `aggregate`, the locale's model is built and its TOC saved,
     * and a failure to build it ends the goal; otherwise nothing is built.
     */
    method LocaleModel(locale: Locale, ghost properties: map<string, string>) returns (failure: Option<MojoError>)
      requires Valid()
      requires system.properties == properties || system.properties == Merged(properties, Some(project))
      modifies this, system, store
      ensures Valid()
      ensures docRenderer == old(docRenderer) && generateToc == old(generateToc)
      ensures system.properties == properties || system.properties == Merged(properties, Some(project))
      ensures failure.Some? <==>
        DecorationFailure().Some? || (aggregate && ExpectedModel(locale, files.contents, properties).Failure?)
      ensures DecorationFailure().Some? ==> failure == DecorationFailure()
      ensures DecorationFailure().None? && failure.Some? ==>
        ExpectedModel(locale, files.contents, properties) == Failure(failure.value)
      ensures OtherSlots(store.files) == OtherSlots(old(store.files))
      ensures !aggregate ==> store.files == old(store.files)
    {
      var decoration := DecorationFailure();
      if decoration.Some? {
        return decoration;
      }
      if !aggregate {
        return None;
      }
      ExpectedModelAfterMerge(locale, files.contents, properties);
      MergedIdempotent(properties, Some(project));
      ghost var slots := store.files;
      var model := GetDocumentModel(locale);
      if model.Failure? {
        return Some(model.error);
      }
      SavedOnlyChangesSlot(slots, workingDirectory, EncodeToc(model.value.toc.name, model.value.toc.items));
      failure := None;
    }

    /**
     * `generatePdf`, as far as models go: for every available locale in order, when aggregating,
     * builds (and so saves the TOC of) the locale's model; the first failure ends the goal.
     */
    method GeneratePdf() returns (failure: Option<MojoError>)
      requires Valid()
      modifies this, system, store
      ensures Valid()
      ensures docRenderer == old(docRenderer) && generateToc == old(generateToc)
      ensures system.properties == old(system.properties)
           || system.properties == Merged(old(system.properties), Some(project))
      ensures failure == GenerationFailure(files.contents, old(system.properties))
      ensures OtherSlots(store.files) == OtherSlots(old(store.files))
      ensures !aggregate ==> store.files == old(store.files)
    {
      var _ := GetDefaultLocale();
      var locales := GetAvailableLocales();
      ghost var properties := system.properties;
      var i := 0;
      while i < |locales|
        invariant Valid() && locales == env.siteLocales && 0 <= i <= |locales|
        invariant docRenderer == old(docRenderer) && generateToc == old(generateToc)
        invariant system.properties == properties || system.properties == Merged(properties, Some(project))
        invariant DecorationFailure().Some? ==> i == 0
        invariant aggregate ==>
          FirstFailure(locales, files.contents, properties) == FirstFailure(locales[i..], files.contents, properties)
        invariant OtherSlots(store.files) == OtherSlots(old(store.files))
        invariant !aggregate ==> store.files == old(store.files)
      {
        assert locales[i..][0] == locales[i] && locales[i..][1..] == locales[i + 1..];
        var failed := LocaleModel(locales[i], properties);
        if failed.Some? {
          return failed;
        }
        i := i + 1;
      }
      failure := None;
    }

    /** The loop of `copyGeneratedPdf`: one step per locale, in order. */
    method CopySteps(locales: seq<Locale>, defaultLocale: Locale, outputName: string) returns (copies: seq<PdfCopy>)
      ensures copies == PdfCopies(locales, defaultLocale, outputName, workingDirectory, outputDirectory, env.renderedPdfs)
    {
      ghost var paths := LocalePdfPaths(locales, defaultLocale, outputName, workingDirectory, outputDirectory);
      var requireCopy := outputDirectory != workingDirectory;
      var pdfs := env.renderedPdfs;
      copies := [];
      var i := 0;
      while i < |locales|
        invariant 0 <= i <= |locales|
        invariant copies + PdfSteps(paths[i..], requireCopy, pdfs) == PdfSteps(paths, requireCopy, env.renderedPdfs)
      {
        CopyStep(paths, i, copies, requireCopy, pdfs, env.renderedPdfs);
        var source := Child(LocaleDirectory(workingDirectory, locales[i], defaultLocale), outputName);
        var destination := Child(LocaleDirectory(outputDirectory, locales[i], defaultLocale), outputName);
        assert PdfPaths(source, destination) == paths[i];
        var copy;
        if source !in pdfs {
          copy := NotFound(source);
        } else if requireCopy {
          copy := Moved(source, destination);
        } else {
          copy := InPlace(destination);
        }
        copies := copies + [copy];
        if copy.Moved? {
          pdfs := pdfs - {source} + {destination};
        }
        i := i + 1;
      }
      assert paths[i..] == [];
    }

    /**
     * `copyGeneratedPdf`: builds the default locale's model (saving its TOC once more) for the
     * output name, then moves each locale's PDF to the output directory when that differs from
     * the working directory.
     */
    method CopyGeneratedPdf() returns (r: Result<seq<PdfCopy>, MojoError>)
      requires Valid()
      modifies this, system, store
      ensures Valid()
      ensures docRenderer == old(docRenderer) && generateToc == old(generateToc)
      ensures r == CopyOutcome(files.contents, old(system.properties))
      ensures r.Success? ==> ExpectedModel(DefaultLocale(), files.contents, old(system.properties)).Success?
      ensures r.Success? ==> store.files == Saved(old(store.files), workingDirectory,
        TocTree(ExpectedModel(DefaultLocale(), files.contents, old(system.properties)).value))
    {
      var defaultLocale := GetDefaultLocale();
      var model := GetDocumentModel(defaultLocale);
      if model.Failure? {
        return Failure(model.error);
      }
      if model.value.outputName.None? {
        return Failure(NullOutputName);
      }
      var outputName := Trim(model.value.outputName.value);
      if !EndsWith(outputName, ".pdf") {
        outputName := outputName + ".pdf";
      }
      assert outputName == PdfOutputName(model.value.outputName.value);
      var locales := GetAvailableLocales();
      var copies := CopySteps(locales, defaultLocale, outputName);
      r := Success(copies);
    }

    /**
     * `execute`: initialises, generates and copies. On success the working directory's
     * `toc.json` holds the default locale's TOC, whatever locales were rendered before it.
     */
    method Execute() returns (r: Result<seq<PdfCopy>, MojoError>)
      requires Valid()
      modifies this, system, store
      ensures Valid()
      ensures docRenderer == Some(SelectRenderer(implementation))
      ensures generateToc == NormalizedGenerateToc(old(generateToc))
      ensures r == ExecuteOutcome(files.contents, old(system.properties))
      ensures r.Success? ==> ExpectedModel(DefaultLocale(), files.contents, old(system.properties)).Success?
      ensures r.Success? ==> store.files == Saved(old(store.files), workingDirectory,
        TocTree(ExpectedModel(DefaultLocale(), files.contents, old(system.properties)).value))
    {
      Init();
      ghost var properties := system.properties;
      var failure := GeneratePdf();
      if failure.Some? {
        return Failure(failure.value);
      }
      ExpectedModelAfterMerge(DefaultLocale(), files.contents, properties);
      ghost var slots := store.files;
      r := CopyGeneratedPdf();
      if r.Success? {
        SavedIgnoresPreviousSlot(slots, old(store.files), workingDirectory,
                                 TocTree(ExpectedModel(DefaultLocale(), files.contents, properties).value));
      }
    }
  }
}

