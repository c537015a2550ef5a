# maven-pdf-plugin: a Dafny model of its TOC handling and decision rules

The Maven PDF plugin renders a project's site documents into one PDF per site locale (`pdf:pdf`).
Its aggregating goal (`pdf:aggregate`) stitches the tables of contents (TOCs) of the modules of
a reactor build into one document. This project models:

- **the PDF goal** (`PdfMojo`). This covers parameter normalisation in `init`, the locale caches,
  per-locale directories and exclude patterns, the `.pdf` output name, and meta-data defaulting
  for models read from a descriptor. It also covers the `project-info` TOC entry for generated
  reports, the default report plugin, and the `<table><table>` fix-up of written reports. The
  goal's sequence of building a document model and saving its TOC per locale is modelled too: on
  success, the `toc.json` left behind is always the default locale's.
- **the TOC store** (`TocFileHelper`): one `toc.json` slot per working directory, overwritten by
  `saveTOC` and read back by `loadToc`. A JSON object tree is the encode/decode pair.
- **the descriptor reader** (`DocumentDescriptorReader`). It selects the localized descriptor
  `base_<language>.ext` and merges the project properties into the system properties. It then
  hands the substitution engine a resolver that answers each `${...}` expression from the first of
  four value sources, in a fixed order, that has a value; the engine itself is a parameter.
- **the aggregator** (`PdfAggregateMojo`). It computes staged ids (the artifactIds from the root
  down, joined with `/`). It rebuilds each module's saved TOC under an item named after the
  module, with every ref prefixed by the staged id, and collapses a lone `project-info` item. It
  also copies the modules' staged site directories.

Files, one module each:

- `wrappers.dfy`: `Option` and `Result`.
- `java_lib.dfy`: the `java.lang`/`java.io`/commons behaviour the code relies on.
- `doxia.dfy`: Doxia's document model.
- `toc_file_helper.dfy`, `document_descriptor_reader.dfy`, `pdf_mojo.dfy` and
  `pdf_aggregate_mojo.dfy`: one per source class.

Objects whose fields the code updates are classes: `DocumentToc`, `DocumentModel`, `TocStore`,
`SystemProperties`, `Reporting` and `PdfMojo`. Their methods are proved against specification
functions (`ExpectedModel`, `Restage`, `Collect`, `EffectivePlugins`, ...), and the properties are
proved about those functions as lemmas.

## Model

| member | source | states |
|---|---|---|
| JavaLib.LeadingBlanks | src/main/java/org/apache/maven/plugins/pdf/PdfMojo.java:404 | the leading characters `trim()` drops: all blank (at or below U+0020), and followed by a non-blank one when any remains |
| JavaLib.TrailingBlanks | src/main/java/org/apache/maven/plugins/pdf/PdfMojo.java:404 | the trailing characters `trim()` drops: all blank, and preceded by a non-blank one when any remains |
| JavaLib.Trim | src/main/java/org/apache/maven/plugins/pdf/PdfMojo.java:404 | `String.trim()` gives a string without blank margins, no longer than the input, empty exactly when the input is all blanks |
| JavaLib.TrimStripsMargins | src/main/java/org/apache/maven/plugins/pdf/PdfMojo.java:404 | trimming blank margins around a trimmed core gives the core back |
| JavaLib.TrimOfTrimmed | src/main/java/org/apache/maven/plugins/pdf/PdfMojo.java:404 | trimming is idempotent on trimmed text |
| JavaLib.ReplaceWithoutOccurrence | src/main/java/org/apache/maven/plugins/pdf/PdfMojo.java:1217 | `StringUtils.replace` leaves text without the pattern unchanged |
| JavaLib.ReplaceNeverGrows | src/main/java/org/apache/maven/plugins/pdf/PdfMojo.java:1217 | replacing a pattern by a shorter string never lengthens the text |
| JavaLib.IndexOf | src/main/java/org/apache/maven/plugins/pdf/PdfAggregateMojo.java:234-244 | the first index holding the character with none before it, or -1 when it does not occur; the staged-id code never searches, this only defines the reference inverse `Split` of its join |
| JavaLib.LastIndexOf | src/main/java/org/apache/maven/plugins/pdf/PdfMojo.java:1050 | `lastIndexOf`: the index holds the character and no later index does, or -1 when it does not occur |
| JavaLib.LastIndexOfAt | src/main/java/org/apache/maven/plugins/pdf/PdfMojo.java:1050 | an index holding the character with no later occurrence is exactly what `lastIndexOf` returns |
| JavaLib.Split | src/main/java/org/apache/maven/plugins/pdf/PdfAggregateMojo.java:234-244 | splitting always yields at least one piece (the reference inverse of the join) |
| JavaLib.JoinAppend | src/main/java/org/apache/maven/plugins/pdf/PdfAggregateMojo.java:236-243 | joining one more part appends the separator and the part |
| JavaLib.SplitJoin | src/main/java/org/apache/maven/plugins/pdf/PdfAggregateMojo.java:234-244 | separator-free parts are recovered by splitting their join |
| JavaLib.ChildParentInjective | src/main/java/org/apache/maven/plugins/pdf/TocFileHelper.java:72-75 | `new File(dir, name)` with one name determines the directory |
| JavaLib.ChildNameInjective | src/main/java/org/apache/maven/plugins/pdf/PdfMojo.java:654-660 | `new File(dir, name)` in one directory determines the name |
| JavaLib.TextFiles.constructor | src/main/java/org/apache/maven/plugins/pdf/DocumentDescriptorReader.java:151-153 | the files on disk hold the given contents |
| Doxia.DocumentToc.constructor | src/main/java/org/apache/maven/plugins/pdf/PdfMojo.java:597-602 | a TOC starts with the given name and items |
| Doxia.DocumentToc.AddItem | src/main/java/org/apache/maven/plugins/pdf/PdfMojo.java:1073 | `addItem` appends the item at the end and keeps the name |
| Doxia.DocumentModel.constructor | src/main/java/org/apache/maven/plugins/pdf/PdfMojo.java:597 | a model holds the given meta data, cover type, output name and a fresh TOC |
| TocFileHelper.EncodeItems | src/main/java/org/apache/maven/plugins/pdf/TocFileHelper.java:48-61 | a list of items is written as one object per item, in order |
| TocFileHelper.DecodeEncodeItem | src/main/java/org/apache/maven/plugins/pdf/TocFileHelper.java:48-70 | reading back a written item gives the item: name, ref, nesting and order survive |
| TocFileHelper.DecodeEncodeItems | src/main/java/org/apache/maven/plugins/pdf/TocFileHelper.java:48-70 | the same for a list of items |
| TocFileHelper.TocStore.constructor | src/main/java/org/apache/maven/plugins/pdf/TocFileHelper.java:44-46 | the store starts with the given slots |
| TocFileHelper.TocStore.SaveToc | src/main/java/org/apache/maven/plugins/pdf/TocFileHelper.java:48-61 | `saveTOC` overwrites the working directory's `toc.json` slot with the TOC's tree, ignoring the locale |
| TocFileHelper.TocStore.LoadToc | src/main/java/org/apache/maven/plugins/pdf/TocFileHelper.java:63-75 | `loadToc` succeeds exactly when `<dir>/toc.json` exists, returning its tree; otherwise an IOException |
| TocFileHelper.LoadAfterSave | src/main/java/org/apache/maven/plugins/pdf/TocFileHelper.java:48-70 | load after save gives the saved name and items decoding to the saved items |
| TocFileHelper.LastSaveWins | src/main/java/org/apache/maven/plugins/pdf/TocFileHelper.java:50-51 | saving twice into one directory (two locales) leaves only the second TOC |
| TocFileHelper.SaveKeepsOtherDirectories | src/main/java/org/apache/maven/plugins/pdf/TocFileHelper.java:72-75 | saving into one directory leaves what every other directory loads unchanged |
| TocFileHelper.SavedOnlyChangesSlot | src/main/java/org/apache/maven/plugins/pdf/TocFileHelper.java:57-60 | a save changes no slot but its own |
| TocFileHelper.SavedIgnoresPreviousSlot | src/main/java/org/apache/maven/plugins/pdf/TocFileHelper.java:57-60 | the result of a save does not depend on what the slot held before |
| DocumentDescriptorReader.Extension | src/main/java/org/apache/maven/plugins/pdf/DocumentDescriptorReader.java:107-108 | `getExtension` is '.'-free and shorter than the name (or empty) |
| DocumentDescriptorReader.LastDotBeforeExtension | src/main/java/org/apache/maven/plugins/pdf/DocumentDescriptorReader.java:107-108 | in `base.ext` with a '.'-free extension the last '.' follows `base` |
| DocumentDescriptorReader.LocalizedNameOfBaseAndExtension | src/main/java/org/apache/maven/plugins/pdf/DocumentDescriptorReader.java:106-109 | `base.ext` localizes to `base_<language>.ext` |
| DocumentDescriptorReader.LocalizedNameWithoutExtension | src/main/java/org/apache/maven/plugins/pdf/DocumentDescriptorReader.java:106-109 | a name without extension gains `_<language>.` |
| DocumentDescriptorReader.LocalizedNameIsLonger | src/main/java/org/apache/maven/plugins/pdf/DocumentDescriptorReader.java:106-109 | the localized name always differs from the name |
| DocumentDescriptorReader.SelectedDescriptorIff | src/main/java/org/apache/maven/plugins/pdf/DocumentDescriptorReader.java:104-115 | the reader switches file exactly when a locale is set and the localized sibling exists, and then reads that sibling |
| DocumentDescriptorReader.MergedPrecedence | src/main/java/org/apache/maven/plugins/pdf/DocumentDescriptorReader.java:120-125 | after `putAll` a key is present iff in either map; the project value wins; other keys keep their system value; a null project adds nothing |
| DocumentDescriptorReader.MergedIdempotent | src/main/java/org/apache/maven/plugins/pdf/DocumentDescriptorReader.java:120-125 | merging into already merged properties changes nothing |
| DocumentDescriptorReader.LookupFirstWithValue | src/main/java/org/apache/maven/plugins/pdf/DocumentDescriptorReader.java:127-149 | lookup gives the value of the first source, in registration order, that has one |
| DocumentDescriptorReader.LookupFromSomeSource | src/main/java/org/apache/maven/plugins/pdf/DocumentDescriptorReader.java:127-149 | a value found comes from a source all of whose predecessors have none |
| DocumentDescriptorReader.ProjectPropertyWins | src/main/java/org/apache/maven/plugins/pdf/DocumentDescriptorReader.java:120-130 | in the resolver the reader hands the engine, a project property shadows environment, project expressions and the date bean |
| DocumentDescriptorReader.ThrowingExpressionFallsThrough | src/main/java/org/apache/maven/plugins/pdf/DocumentDescriptorReader.java:133-149 | in the resolver the reader hands the engine, an expression the project evaluation throws on falls through to the date bean |
| DocumentDescriptorReader.ReadOutcomeCases | src/main/java/org/apache/maven/plugins/pdf/DocumentDescriptorReader.java:151-170 | the engine sees the sources only through their first-with-a-value resolver; success is the non-strict parse of the selected file interpolated through it; a failed substitution becomes the "Error interpolating document descriptor" IOException with its cause; a read failure happens exactly when the selected file is absent |
| DocumentDescriptorReader.SystemProperties.constructor | src/main/java/org/apache/maven/plugins/pdf/DocumentDescriptorReader.java:120 | the system properties start as given |
| DocumentDescriptorReader.Reader.constructor | src/main/java/org/apache/maven/plugins/pdf/DocumentDescriptorReader.java:86-91 | the reader keeps its project and locale, both possibly null |
| DocumentDescriptorReader.Reader.ReadAndFilterDocumentDescriptor | src/main/java/org/apache/maven/plugins/pdf/DocumentDescriptorReader.java:101-171 | the live system properties become the merge (even when reading then fails) and the result is the read outcome for the file selected, interpolated through the sources' resolver |
| PdfMojo.SelectRendererIff | src/main/java/org/apache/maven/plugins/pdf/PdfMojo.java:372-381 | iText is selected exactly for `itext` in any case; anything else selects FO |
| PdfMojo.NormalizedGenerateTocValid | src/main/java/org/apache/maven/plugins/pdf/PdfMojo.java:383-389 | `generateTOC` ends up none/start/end in some case; valid values are kept verbatim, others become `start`; normalising is idempotent |
| PdfMojo.LocaleDirectoryInjective | src/main/java/org/apache/maven/plugins/pdf/PdfMojo.java:654-660 | two locales share a directory only if they share a language |
| PdfMojo.LocaleExcludesOfPrefix | src/main/java/org/apache/maven/plugins/pdf/PdfMojo.java:1230-1234 | one more locale appends `,**/<language>/*`, or nothing for the default language |
| PdfMojo.LocaleExcludesOfDefaultLanguage | src/main/java/org/apache/maven/plugins/pdf/PdfMojo.java:1228-1237 | locales all in the default language add no pattern |
| PdfMojo.GetDefaultExcludesWithLocales | src/main/java/org/apache/maven/plugins/pdf/PdfMojo.java:1228-1237 | the default excludes followed by one pattern per non-default-language locale, in list order |
| PdfMojo.ExcludesStep | src/main/java/org/apache/maven/plugins/pdf/PdfMojo.java:1230-1234 | one loop turn appends `,**/<language>/*` for a non-default language and nothing otherwise, keeping the excludes equal to the defaults plus the patterns of the locales seen so far |
| PdfMojo.PdfOutputNameIdempotent | src/main/java/org/apache/maven/plugins/pdf/PdfMojo.java:404-407 | the PDF name is trimmed, ends in `.pdf`, and the rule is idempotent |
| PdfMojo.PdfOutputNameKeepsPdfSuffix | src/main/java/org/apache/maven/plugins/pdf/PdfMojo.java:404-407 | a name already ending in `.pdf` only loses its blank margins |
| PdfMojo.DefaultGenerator | src/main/java/org/apache/maven/plugins/pdf/PdfMojo.java:766-768 | the generator text starts with "Maven PDF Plugin v. " and ends with the quoted implementation followed by " implementation." |
| PdfMojo.DefaultedMetaProperties | src/main/java/org/apache/maven/plugins/pdf/PdfMojo.java:632-644 | set language/generator values are kept, empty ones get the locale's language and the default generator, and defaulting is idempotent |
| PdfMojo.ReportItems | src/main/java/org/apache/maven/plugins/pdf/PdfMojo.java:1025-1033 | one item per generated report, in order, with the report's name and output name |
| PdfMojo.OutputNames | src/main/java/org/apache/maven/plugins/pdf/PdfMojo.java:1032 | the refs recorded as added are the reports' output names, in order |
| PdfMojo.SiteDocItemsComeFromDocs | src/main/java/org/apache/maven/plugins/pdf/PdfMojo.java:1045-1063 | every generated-site item comes from a titled listed document whose ref (text before the last '.') is not a report output name |
| PdfMojo.SiteDocItemsCount | src/main/java/org/apache/maven/plugins/pdf/PdfMojo.java:1045-1063 | without read errors, every titled document not shadowed by a report gets an item |
| PdfMojo.SameRefTwice | src/main/java/org/apache/maven/plugins/pdf/PdfMojo.java:1050-1061 | two documents with the same ref both get an item: refs are not de-duplicated among documents |
| PdfMojo.FirstProjectInfoReports | src/main/java/org/apache/maven/plugins/pdf/PdfMojo.java:1182-1189 | the scan stops at the first `maven-project-info-reports-plugin`, with none before it |
| PdfMojo.EffectivePluginsProperties | src/main/java/org/apache/maven/plugins/pdf/PdfMojo.java:1178-1197 | existing plugins stay first and in order; the default plugin is appended iff defaults are not excluded and it is absent; it is present afterwards unless excluded; a second call adds nothing |
| PdfMojo.Reporting.constructor | src/main/java/org/apache/maven/plugins/pdf/PdfMojo.java:1179 | the reporting section holds its plugin list and `excludeDefaults` |
| PdfMojo.GetReportingPlugins | src/main/java/org/apache/maven/plugins/pdf/PdfMojo.java:1178-1197 | the live plugin list becomes the effective list, which is returned |
| PdfMojo.FixedReportProperties | src/main/java/org/apache/maven/plugins/pdf/PdfMojo.java:1217 | the fix-up never lengthens a report and leaves one without nested tables alone |
| PdfMojo.FixedReportNotAFixpoint | src/main/java/org/apache/maven/plugins/pdf/PdfMojo.java:1217 | one pass is not a fixpoint: three nested tables leave two |
| PdfMojo.WriteGeneratedReport | src/main/java/org/apache/maven/plugins/pdf/PdfMojo.java:1210-1219 | null or empty content writes nothing; otherwise the file holds the fixed content |
| PdfMojo.PdfCopies | src/main/java/org/apache/maven/plugins/pdf/PdfMojo.java:409-425 | one copy step per available locale, in order, each taken on the PDF files present after the steps before it |
| PdfMojo.LocalePdfPaths | src/main/java/org/apache/maven/plugins/pdf/PdfMojo.java:410-417 | each locale's PDF is rendered under its directory in the working directory and goes to its directory in the output directory |
| PdfMojo.PdfSteps | src/main/java/org/apache/maven/plugins/pdf/PdfMojo.java:409-425 | one step per PDF, in order |
| PdfMojo.PdfStepsTail | src/main/java/org/apache/maven/plugins/pdf/PdfMojo.java:409-425 | the first step is taken on the PDFs present, and the later steps start from what it leaves |
| PdfMojo.CopyStep | src/main/java/org/apache/maven/plugins/pdf/PdfMojo.java:409-425 | one turn of the copy loop: the current step on the PDFs present, then the remaining steps from what it leaves |
| PdfMojo.PdfStepsPaths | src/main/java/org/apache/maven/plugins/pdf/PdfMojo.java:410-422 | each step names its own PDF's source and destination, and a PDF moves only when a copy is required |
| PdfMojo.AbsentUntilMovedThere | src/main/java/org/apache/maven/plugins/pdf/PdfMojo.java:412-415 | a missing PDF stays missing, so it is skipped, until some step moves a PDF onto that file |
| PdfMojo.MovedSourceGone | src/main/java/org/apache/maven/plugins/pdf/PdfMojo.java:419-422 | a moved PDF is deleted: a later step looking for the same file skips it unless a step in between moved a PDF onto that file |
| PdfMojo.DestinationIsNotSource | src/main/java/org/apache/maven/plugins/pdf/PdfMojo.java:399-417 | between two different directories a locale's PDF never goes to the file it came from |
| PdfMojo.SameLanguageMovedOnce | src/main/java/org/apache/maven/plugins/pdf/PdfMojo.java:409-422 | two consecutive locales of one language share one PDF: once the first moves it, the second finds nothing and is skipped |
| PdfMojo.NoSourceMovedTwice | src/main/java/org/apache/maven/plugins/pdf/PdfMojo.java:409-422 | when no destination is a locale's rendered file, no file is moved twice |
| PdfMojo.PdfCopiesDistinct | src/main/java/org/apache/maven/plugins/pdf/PdfMojo.java:399-425 | PDFs of different languages are never moved to the same file, and nothing is moved when output and working directories coincide |
| PdfMojo.PdfMojo.constructor | src/main/java/org/apache/maven/plugins/pdf/PdfMojo.java:318-331 | a mojo with its parameters and collaborators and empty caches |
| PdfMojo.PdfMojo.ExpectedModelAfterMerge | src/main/java/org/apache/maven/plugins/pdf/DocumentDescriptorReader.java:120-125 | reading a descriptor after the properties were already merged reads the same model |
| PdfMojo.PdfMojo.ExpectedModelProperties | src/main/java/org/apache/maven/plugins/pdf/PdfMojo.java:585-645 | every model built has a language and generator and ends with the generated-reports entry; without a descriptor it builds exactly when `site.xml` is usable, in the locale's language with the default generator, and otherwise fails with the site descriptor's error; with a descriptor it never fails for want of the file |
| PdfMojo.PdfMojo.DecorationFailure | src/main/java/org/apache/maven/plugins/pdf/PdfMojo.java:689-717 | `getDefaultDecorationModel` throws exactly when an existing `site.xml` cannot be read, interpolated or parsed, with that failure |
| PdfMojo.PdfMojo.GenerationFailureCases | src/main/java/org/apache/maven/plugins/pdf/PdfMojo.java:435-473 | generation succeeds exactly when `site.xml` is usable and, when aggregating, every locale's model builds; a failure is the site descriptor's or some locale's own |
| PdfMojo.PdfMojo.FirstFailureIff | src/main/java/org/apache/maven/plugins/pdf/PdfMojo.java:438-465 | generation has no failure exactly when every locale's model builds, and a failure is some locale's own error |
| PdfMojo.PdfMojo.Init | src/main/java/org/apache/maven/plugins/pdf/PdfMojo.java:372-390 | the renderer is the selected one and `generateTOC` is normalised |
| PdfMojo.PdfMojo.GetAvailableLocales | src/main/java/org/apache/maven/plugins/pdf/PdfMojo.java:677-683 | the site tool's locales, cached after the first call |
| PdfMojo.PdfMojo.GetDefaultLocale | src/main/java/org/apache/maven/plugins/pdf/PdfMojo.java:666-672 | the first available locale, cached after the first call |
| PdfMojo.PdfMojo.GetDocumentModelFromDescriptor | src/main/java/org/apache/maven/plugins/pdf/PdfMojo.java:620-645 | a parse failure is "Error reading", a read or interpolation failure "Error opening"; otherwise the read model with its meta defaulted |
| PdfMojo.PdfMojo.AppendGeneratedReports | src/main/java/org/apache/maven/plugins/pdf/PdfMojo.java:1008-1074 | nothing is appended when reports are excluded or none were generated; otherwise one `project-info` item with the report items then the site-document items |
| PdfMojo.ReportEntries | src/main/java/org/apache/maven/plugins/pdf/PdfMojo.java:1020-1033 | one item per generated report, named and referenced by the report, in order, and the list of refs added |
| PdfMojo.SiteDocEntries | src/main/java/org/apache/maven/plugins/pdf/PdfMojo.java:1036-1068 | the site documents in order whose ref (the file name up to its last '.') was not added and that have a title, stopping at the first IOException |
| PdfMojo.PdfMojo.GetDocumentModel | src/main/java/org/apache/maven/plugins/pdf/PdfMojo.java:585-611 | the model is the expected one for the locale (including the site descriptor's failure on the builder path), and on success its TOC is saved to the working directory's slot |
| PdfMojo.PdfMojo.NewBuiltModel | src/main/java/org/apache/maven/plugins/pdf/PdfMojo.java:597-601 | fails exactly when `site.xml` cannot be used, with that error; otherwise a fresh model built from the project whose meta holds the locale's language and the default generator, and whose cover type and TOC name come from the default locale's messages |
| PdfMojo.PdfMojo.GeneratePdf | src/main/java/org/apache/maven/plugins/pdf/PdfMojo.java:435-473 | fails with the site descriptor's error if `site.xml` cannot be used; otherwise, when aggregating, every locale's model is built in order and the first failure ends the goal; only the working directory's TOC slot changes |
| PdfMojo.PdfMojo.LocaleModel | src/main/java/org/apache/maven/plugins/pdf/PdfMojo.java:443-464 | the decoration read by `copyResources` fails first when `site.xml` cannot be used; then with `aggregate` the locale's model is built and fails exactly when its expected model fails, with that error; without it nothing is built; only the working directory's TOC slot may change |
| PdfMojo.PdfMojo.CopySteps | src/main/java/org/apache/maven/plugins/pdf/PdfMojo.java:409-425 | the loop equals `PdfCopies`: a missing PDF is skipped, an existing one is moved (and deleted from the working directory) when the directories differ, or left in place |
| PdfMojo.PdfMojo.CopyGeneratedPdf | src/main/java/org/apache/maven/plugins/pdf/PdfMojo.java:399-426 | the default locale's model is built again (re-saving its TOC); a null output name fails; the copy steps use the `.pdf` name |
| PdfMojo.PdfMojo.Execute | src/main/java/org/apache/maven/plugins/pdf/PdfMojo.java:334-350 | after init, generation and copying, a successful run leaves the default locale's TOC in `toc.json` whatever locales were built before it |
| PdfAggregateMojo.Lineage | src/main/java/org/apache/maven/plugins/pdf/PdfAggregateMojo.java:226-232 | the artifactIds from the root down end with the project's own |
| PdfAggregateMojo.Ancestors | src/main/java/org/apache/maven/plugins/pdf/PdfAggregateMojo.java:228-232 | the lineage is the ancestors' artifactIds followed by the project's |
| PdfAggregateMojo.GetStagedId | src/main/java/org/apache/maven/plugins/pdf/PdfAggregateMojo.java:224-245 | the staged id is the lineage joined with '/' |
| PdfAggregateMojo.JoinWithSlashes | src/main/java/org/apache/maven/plugins/pdf/PdfAggregateMojo.java:234-244 | a '/' follows every element but the last |
| PdfAggregateMojo.StagedIdExtendsParent | src/main/java/org/apache/maven/plugins/pdf/PdfAggregateMojo.java:226-233 | a child's staged id is its parent's, '/', and its artifactId |
| PdfAggregateMojo.StagedIdInjective | src/main/java/org/apache/maven/plugins/pdf/PdfAggregateMojo.java:224-245 | with '/'-free artifactIds, equal staged ids mean equal lineages |
| PdfAggregateMojo.RestageAll | src/main/java/org/apache/maven/plugins/pdf/PdfAggregateMojo.java:214-219 | children are rebuilt one per node, in order, defined iff each one is |
| PdfAggregateMojo.AddTocItem | src/main/java/org/apache/maven/plugins/pdf/PdfAggregateMojo.java:208-222 | the recursive `addTOCItems` builds the restaged item: same name, `stagedId/ref`, children in order; it throws on a missing `items` list |
| PdfAggregateMojo.Prefixed | src/main/java/org/apache/maven/plugins/pdf/PdfAggregateMojo.java:208-222 | prefixing keeps the name and the number of children |
| PdfAggregateMojo.PrefixedAll | src/main/java/org/apache/maven/plugins/pdf/PdfAggregateMojo.java:216-219 | prefixing a list keeps length and order |
| PdfAggregateMojo.RestageSaved | src/main/java/org/apache/maven/plugins/pdf/PdfAggregateMojo.java:208-222 | restaging a saved item gives the item with every ref prefixed by the staged id |
| PdfAggregateMojo.RestageAllSaved | src/main/java/org/apache/maven/plugins/pdf/PdfAggregateMojo.java:214-219 | the same for a list of saved items |
| PdfAggregateMojo.RestageDefinedIffDecodable | src/main/java/org/apache/maven/plugins/pdf/PdfAggregateMojo.java:208-222 | restaging succeeds exactly on trees with no missing `items` list |
| PdfAggregateMojo.RestageAllDefinedIffDecodable | src/main/java/org/apache/maven/plugins/pdf/PdfAggregateMojo.java:214-219 | the same for a list of trees |
| PdfAggregateMojo.LoadModuleToc | src/main/java/org/apache/maven/plugins/pdf/PdfAggregateMojo.java:195-206 | the module's saved tree, or the empty map when loading fails |
| PdfAggregateMojo.AddTocItems | src/main/java/org/apache/maven/plugins/pdf/PdfAggregateMojo.java:169-193 | the module item is appended at the end, or the call throws and nothing is appended |
| PdfAggregateMojo.ModuleItemOfSavedToc | src/main/java/org/apache/maven/plugins/pdf/PdfAggregateMojo.java:169-193 | a saved TOC yields one item named after the project with the staged id as ref and the prefixed top-level items, a lone `project-info` item being replaced by its children |
| PdfAggregateMojo.MissingTocThrows | src/main/java/org/apache/maven/plugins/pdf/PdfAggregateMojo.java:173-181 | a module without a saved TOC makes `addTOCItems` throw |
| PdfAggregateMojo.CopiesUntilFailure | src/main/java/org/apache/maven/plugins/pdf/PdfAggregateMojo.java:149-160 | the copies are a prefix of the directories, in order, each going from `src/d` to `dst/d/stagedId` |
| PdfAggregateMojo.CopiesStopAtFirstFailure | src/main/java/org/apache/maven/plugins/pdf/PdfAggregateMojo.java:149-160 | every directory copied has a destination that exists or can be created, and the copies stop short only at a directory whose destination neither exists nor can be created, which ends the module |
| PdfAggregateMojo.CopySiteDirectoryTmp | src/main/java/org/apache/maven/plugins/pdf/PdfAggregateMojo.java:127-167 | a module without reporting or `site.tmp` copies nothing; otherwise the copies above |
| PdfAggregateMojo.Outcomes | src/main/java/org/apache/maven/plugins/pdf/PdfAggregateMojo.java:117-124 | one outcome per reactor project, in reactor order |
| PdfAggregateMojo.CollectAppend | src/main/java/org/apache/maven/plugins/pdf/PdfAggregateMojo.java:117-124 | the reactor loop over a completed prefix then the rest is the loop over the whole |
| PdfAggregateMojo.CollectCompleted | src/main/java/org/apache/maven/plugins/pdf/PdfAggregateMojo.java:117-124 | the loop completes iff no module item throws, and then appends every module item in order |
| PdfAggregateMojo.AggregateCompleted | src/main/java/org/apache/maven/plugins/pdf/PdfAggregateMojo.java:117-124 | over a whole reactor: every module's item, in order, unless some module throws |
| PdfAggregateMojo.CollectStep | src/main/java/org/apache/maven/plugins/pdf/PdfAggregateMojo.java:121-123 | a module whose item is built extends the completed prefix |
| PdfAggregateMojo.CollectStop | src/main/java/org/apache/maven/plugins/pdf/PdfAggregateMojo.java:121-123 | a module whose item throws ends the loop after its copies |
| PdfAggregateMojo.AppendGeneratedReports | src/main/java/org/apache/maven/plugins/pdf/PdfAggregateMojo.java:94-125 | a null staged site directory throws, a missing one appends nothing, otherwise the reactor loop's items are appended and its copies made |
| PdfAggregateMojo.NestedModulesExample | src/main/java/org/apache/maven/plugins/pdf/PdfAggregateMojo.java:169-245 | an illustration of the general lemmas: nested modules root, root/a, root/a/b with one page each aggregate into pages root/x, root/a/x, root/a/b/x |
| PdfAggregateMojo.ExampleStagedIds | src/main/java/org/apache/maven/plugins/pdf/PdfAggregateMojo.java:224-245 | an illustration of `StagedIdExtendsParent`: the example modules have staged ids root, root/a and root/a/b |
| PdfAggregateMojo.PageXStaged | src/main/java/org/apache/maven/plugins/pdf/PdfAggregateMojo.java:169-222 | an illustration of `ModuleItemOfSavedToc`: a module that saved the one page `x` contributes one item with the page `<stagedId>/x` |

## Left out

- JSON text: the UTF-8 encoding, two-space indentation and the JSON parser. The store holds the
  object tree that parsing returns.
- XML parsing of the document descriptor and the `${...}` substitution engine. Both are
  parameters (`parse`, `interpolate`). The engine is given only the resolver over the value
  sources, so what it substitutes is taken to be what the resolver answers; its expression syntax,
  recursion and escaping are not modelled.
- `ReflectionValueExtractor` is a parameter (`ProjectView.evaluate`). The interpolator's
  feedback messages are not modelled.
- `EnvarBasedValueSource`'s `env.` prefix handling and `DateBean`: both are lookup functions
  given as parameters.
- Rendering (`render`), report execution (`generateMavenReports`/`generateMavenReport`),
  resource copying by `copyResources` after it reads the decoration, the site renderer, and class-loader swapping: none of these
  are modelled. The reports generated, the site documents listed, their titles and the PDFs
  written are data of the model (`Collaborators`).
- `Extension` and `RemoveExtension` follow the documented behaviour of maven-shared-utils'
  `FileUtils.getExtension`/`removeExtension` for bare file names (no directory part); that
  library is not part of this model.
- `getGeneratedDocumentTitle` is given as data (`TitleResult`): title, null or IOException.
- Directory listings (`FileUtils.getDirectoryNames`/`getFileNames`) are given as data.
  Every listed generated file is taken to contain a '.', which the `**.*` pattern selects.
- File-tree copying and deletion (`copyDirectoryStructure`, `copyFile`, `delete`) are not
  performed. `copySiteDirectoryTmp` and `copyGeneratedPdf` return the copies they would make.
  `copyGeneratedPdf` tracks which PDF files exist as a set: a moved PDF is removed from it and its
  destination added, so a later locale looking for it skips it. File contents are not modelled.
  IOExceptions while copying are not modelled.
- Write failures in `saveTOC` (logged and ignored) and `writeGeneratedReport` are not modelled.
- `Locale.setDefault` is not modelled. The default locale is passed explicitly.
- Canonical paths are modelled as path equality. `getParentFile()` of the descriptor is taken
  to be non-null.
- `equalsIgnoreCase` against the lower-case literals folds ASCII upper case and the four
  non-ASCII characters Java folds into `i`, `k` or `s`. Other Unicode case rules do not matter
  for those literals and are not modelled.
- `DocumentModelBuilder` is an opaque default model (`builtModel`) whose meta data is present.
- `getDefaultDecorationModel` is modelled only by whether it throws (`siteDescriptor`), with its
  three messages. The decoration it reads and its caching are not modelled: the builder's model is
  given as data, and the same inputs give the same outcome on every call. `copyResources` is
  modelled only by its first step, reading the decoration.
- The `IOException` branch of `execute` (which builds the English model for logging) is not
  modelled. Only the left-out rendering steps can throw it.
- Null pointer exceptions are modelled as failure outcomes:
  - a missing `items` list in a loaded TOC;
  - a null staged site directory;
  - a null output name.
- `siteTool.getSiteLocales` always returns at least one locale (`get(0)`).
- Virtual dispatch between the goals is not modelled. In `pdf:aggregate`, `getDocumentModel`
  calls the aggregator's `appendGeneratedReports`. `PdfMojo.PdfMojo` models the `pdf` goal.
  `PdfAggregateMojo.AppendGeneratedReports` states the aggregator's override on its own. Its
  inherited part adds nothing because the aggregator never includes reports.
