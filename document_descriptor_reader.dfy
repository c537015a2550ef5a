/**
 * `DocumentDescriptorReader`: reads the PDF document descriptor (`pdf.xml`), preferring a
 * sibling localized for the reader's locale, substitutes `${...}` expressions from four value
 * sources in a fixed order, and parses the result leniently into a document model.
 */
module DocumentDescriptorReader {
  import opened Wrappers
  import opened JavaLib
  import opened Doxia

  // ----- Localized descriptor names -----

  /** `FileUtils.getExtension` of a bare file name: the text after the last '.', or "" without one. */
  function Extension(name: string): (ext: string)
    ensures '.' !in ext
    ensures |ext| < |name| || ext == ""
  {
    var dot := LastIndexOf(name, '.');
    if dot < 0 then "" else name[dot + 1..]
  }

  /** `FileUtils.removeExtension`: the name without its final "." and extension; unchanged without an extension. */
  function RemoveExtension(name: string): string
  {
    var ext := Extension(name);
    if ext == "" then name else name[..|name| - |ext| - 1]
  }

  /** The localized sibling's name: `removeExtension(name) + '_' + language + '.' + getExtension(name)`. */
  function LocalizedName(name: string, language: string): string
  {
    RemoveExtension(name) + "_" + language + "." + Extension(name)
  }

  /** In `s = base.ext` with a '.'-free extension, the last '.' is the one after `base`. */
  lemma LastDotBeforeExtension(s: string, base: string, ext: string)
    requires s == base + "." + ext && '.' !in ext
    ensures LastIndexOf(s, '.') == |base|
  {
    forall k | |base| < k < |s|
      ensures s[k] != '.'
    {
      assert s[k] == ext[k - |base| - 1];
    }
    LastIndexOfAt(s, '.', |base|);
  }

  /** A name `base.ext` localizes to `base_<language>.ext`. */
  lemma LocalizedNameOfBaseAndExtension(base: string, ext: string, language: string)
    requires ext != "" && '.' !in ext
    ensures LocalizedName(base + "." + ext, language) == base + "_" + language + "." + ext
  {
    var s := base + "." + ext;
    LastDotBeforeExtension(s, base, ext);
    assert s[|base| + 1..] == ext;
    assert Extension(s) == ext;
    assert s[..|s| - |ext| - 1] == base;
  }

  /** A name `base.` (empty extension) or one with no '.' at all gains `_<language>.` at the end. */
  lemma LocalizedNameWithoutExtension(name: string, language: string)
    requires '.' !in name || (|name| > 0 && name[|name| - 1] == '.')
    ensures LocalizedName(name, language) == name + "_" + language + "."
  {
    if '.' in name {
      assert LastIndexOf(name, '.') == |name| - 1;
      assert name[|name|..] == "";
    }
  }

  /** The localized name is never the name itself: it is longer by the language and two characters or one. */
  lemma LocalizedNameIsLonger(name: string, language: string)
    ensures |LocalizedName(name, language)| >= |name| + |language| + 1
    ensures LocalizedName(name, language) != name
  {
  }

  /** A descriptor file: `getParentFile()` and `getName()`. */
  datatype Descriptor = Descriptor(parent: Path, name: string)
  {
    function Path(): Path
    {
      Child(parent, name)
    }
  }

  /** The file the reader reads: the localized sibling when a locale is set and that sibling exists. */
  function SelectedDescriptor(d: Descriptor, locale: Option<Locale>, existing: set<Path>): Descriptor
  {
    if locale.None? then d
    else
      var localized := Descriptor(d.parent, LocalizedName(d.name, locale.value.language));
      if localized.Path() in existing then localized else d
  }

  /**
   * The reader switches to another file exactly when it has a locale and the localized sibling
   * exists; that file is then the sibling in the same directory.
   */
  lemma SelectedDescriptorIff(d: Descriptor, locale: Option<Locale>, existing: set<Path>)
    ensures SelectedDescriptor(d, locale, existing) != d
        <==> locale.Some? && Child(d.parent, LocalizedName(d.name, locale.value.language)) in existing
    ensures SelectedDescriptor(d, locale, existing) != d ==>
      SelectedDescriptor(d, locale, existing) == Descriptor(d.parent, LocalizedName(d.name, locale.value.language))
  {
    if locale.Some? {
      LocalizedNameIsLonger(d.name, locale.value.language);
    }
  }

  // ----- Value sources -----

  /** The project the reader was made with: its properties (possibly null) and expression evaluation. */
  datatype ProjectView = ProjectView(properties: Option<map<string, string>>, evaluate: string -> Extraction)

  /** What `ReflectionValueExtractor.evaluate(expression, project)` does: a value, null, or an exception. */
  datatype Extraction = Extracted(value: string) | NoValue | Threw(message: string)

  /** `filterProperties.putAll(project.getProperties())`: project values win; a null project or null properties add nothing. */
  function Merged(system: map<string, string>, project: Option<ProjectView>): map<string, string>
  {
    if project.Some? && project.value.properties.Some? then system + project.value.properties.value else system
  }

  /** On a key both define the project's value wins; every other key keeps its system value. */
  lemma MergedPrecedence(system: map<string, string>, project: Option<ProjectView>, key: string)
    ensures key in Merged(system, project) <==>
      key in system || (project.Some? && project.value.properties.Some? && key in project.value.properties.value)
    ensures project.Some? && project.value.properties.Some? && key in project.value.properties.value ==>
      Merged(system, project)[key] == project.value.properties.value[key]
    ensures key in system && !(project.Some? && project.value.properties.Some? && key in project.value.properties.value) ==>
      Merged(system, project)[key] == system[key]
  {
  }

  /** Merging into properties that already hold the merge changes nothing (the second read of the live object). */
  lemma MergedIdempotent(system: map<string, string>, project: Option<ProjectView>)
    ensures Merged(Merged(system, project), project) == Merged(system, project)
  {
  }

  /** One value source registered on the interpolator. */
  datatype ValueSource =
    | PropertiesSource(properties: map<string, string>)    // MapBasedValueSource over the merged properties
    | EnvironmentSource(lookup: string -> Option<string>)  // EnvarBasedValueSource
    | ProjectSource(project: Option<ProjectView>)          // the ObjectBasedValueSource over the project
    | DateSource(lookup: string -> Option<string>)         // the ObjectBasedValueSource over a DateBean

  /** The value a source gives for an expression; an exception while evaluating against the project gives null. */
  function SourceValue(source: ValueSource, expression: string): Option<string>
  {
    match source
    case PropertiesSource(properties) => if expression in properties then Some(properties[expression]) else None
    case EnvironmentSource(lookup) => lookup(expression)
    case ProjectSource(project) =>
      if project.None? then None
      else (
        match project.value.evaluate(expression)
        case Extracted(v) => Some(v)
        case NoValue => None
        case Threw(_) => None)
    case DateSource(lookup) => lookup(expression)
  }

  /** The interpolator's resolution of one expression: the first source, in registration order, with a value. */
  function Lookup(sources: seq<ValueSource>, expression: string): Option<string>
  {
    if sources == [] then None
    else
      match SourceValue(sources[0], expression)
      case Some(v) => Some(v)
      case None => Lookup(sources[1..], expression)
  }

  /** Lookup gives the value of source `k` when it has one and no earlier source has. */
  lemma {:induction false} LookupFirstWithValue(sources: seq<ValueSource>, expression: string, k: nat)
    requires k < |sources| && SourceValue(sources[k], expression).Some?
    requires forall j :: 0 <= j < k ==> SourceValue(sources[j], expression).None?
    ensures Lookup(sources, expression) == SourceValue(sources[k], expression)
    decreases k
  {
    if k > 0 {
      LookupFirstWithValue(sources[1..], expression, k - 1);
    }
  }

  /** Conversely, a value found by lookup comes from the first source that has one. */
  lemma {:induction false} LookupFromSomeSource(sources: seq<ValueSource>, expression: string)
    requires Lookup(sources, expression).Some?
    ensures exists k :: (0 <= k < |sources| && Lookup(sources, expression) == SourceValue(sources[k], expression)
                         && forall j :: 0 <= j < k ==> SourceValue(sources[j], expression).None?)
    decreases |sources|
  {
    if SourceValue(sources[0], expression).None? {
      LookupFromSomeSource(sources[1..], expression);
      var k :| (0 <= k < |sources[1..]| && Lookup(sources[1..], expression) == SourceValue(sources[1..][k], expression)
                && forall j :: 0 <= j < k ==> SourceValue(sources[1..][j], expression).None?);
      assert forall j :: 1 <= j < k + 1 ==> sources[j] == sources[1..][j - 1];
      assert Lookup(sources, expression) == SourceValue(sources[k + 1], expression);
    } else {
      assert Lookup(sources, expression) == SourceValue(sources[0], expression);
    }
  }

  /**
   * The resolver the interpolator hands its substitution engine: each `${...}` expression is
   * looked up through the sources, and the engine sees nothing else of them.
   */
  function Resolver(sources: seq<ValueSource>): (resolve: string -> Option<string>)
  {
    expression => Lookup(sources, expression)
  }

  /** The four sources, in the order the reader registers them. */
  function ValueSources(merged: map<string, string>, environment: string -> Option<string>,
                        project: Option<ProjectView>, date: string -> Option<string>): seq<ValueSource>
  {
    [PropertiesSource(merged), EnvironmentSource(environment), ProjectSource(project), DateSource(date)]
  }

  /**
   * In the resolver the reader hands the engine, a project property shadows the environment, the
   * project's own expressions and the date bean.
   */
  lemma ProjectPropertyWins(system: map<string, string>, project: ProjectView,
                            environment: string -> Option<string>, date: string -> Option<string>, key: string)
    requires project.properties.Some? && key in project.properties.value
    ensures Resolver(ValueSources(Merged(system, Some(project)), environment, Some(project), date))(key)
      == Some(project.properties.value[key])
  {
  }

  /**
   * In the resolver the reader hands the engine, an expression the project evaluation throws on is
   * resolved by the date bean when neither the properties nor the environment have it: the
   * exception never reaches the engine.
   */
  lemma ThrowingExpressionFallsThrough(merged: map<string, string>, environment: string -> Option<string>,
                                       project: ProjectView, date: string -> Option<string>, expression: string)
    requires expression !in merged && environment(expression).None?
    requires project.evaluate(expression).Threw?
    ensures Resolver(ValueSources(merged, environment, Some(project), date))(expression) == date(expression)
  {
    var sources := ValueSources(merged, environment, Some(project), date);
    assert SourceValue(sources[0], expression).None?;
    assert SourceValue(sources[1], expression).None?;
    assert SourceValue(sources[2], expression).None?;
    assert sources[1..][1..][1..] == [DateSource(date)];
    assert Lookup(sources[1..][1..][1..], expression) == date(expression);
    assert Lookup(sources[1..][1..], expression) == date(expression);
    assert Lookup(sources[1..], expression) == date(expression);
  }

  // ----- Reading -----

  /** The exceptions `readAndFilterDocumentDescriptor` can throw. */
  datatype ReadError =
    | ReadFailed(path: Path)                        // IOException opening or reading the file
    | InterpolationFailed(message: string, cause: string) // IOException wrapping an InterpolationException
    | ParseFailed(message: string)                  // XmlPullParserException

  const InterpolationErrorMessage: string := "Error interpolating document descriptor"

  /**
   * What reading yields, given the files on disk (a path exists when it has contents), the system
   * properties before the call, the substitution engine and the descriptor parser.
   */
  function ReadOutcome(d: Descriptor, locale: Option<Locale>, project: Option<ProjectView>,
                       files: map<Path, string>, system: map<string, string>,
                       environment: string -> Option<string>, date: string -> Option<string>,
                       interpolate: (string, string -> Option<string>) -> Result<string, string>,
                       parse: (string, bool) -> Result<ModelData, string>): Result<ModelData, ReadError>
  {
    var file := SelectedDescriptor(d, locale, files.Keys).Path();
    var sources := ValueSources(Merged(system, project), environment, project, date);
    if file !in files then Failure(ReadFailed(file))
    else
      match interpolate(files[file], Resolver(sources))
      case Failure(cause) => Failure(InterpolationFailed(InterpolationErrorMessage, cause))
      case Success(text) =>
        match parse(text, false)
        case Failure(message) => Failure(ParseFailed(message))
        case Success(model) => Success(model)
  }

  /**
   * A successful read is the lenient parse of the selected file's text as interpolated through the
   * sources' resolver, and a failed substitution is always reported as the interpolation
   * IOException carrying its cause.
   */
  lemma ReadOutcomeCases(d: Descriptor, locale: Option<Locale>, project: Option<ProjectView>,
                         files: map<Path, string>, system: map<string, string>,
                         environment: string -> Option<string>, date: string -> Option<string>,
                         interpolate: (string, string -> Option<string>) -> Result<string, string>,
                         parse: (string, bool) -> Result<ModelData, string>)
    ensures var r := ReadOutcome(d, locale, project, files, system, environment, date, interpolate, parse);
      var file := SelectedDescriptor(d, locale, files.Keys).Path();
      var sources := ValueSources(Merged(system, project), environment, project, date);
      (r.Success? ==> file in files && interpolate(files[file], Resolver(sources)).Success?
                      && parse(interpolate(files[file], Resolver(sources)).value, false) == Success(r.value))
      && (r.Failure? && r.error.InterpolationFailed? ==>
            file in files && interpolate(files[file], Resolver(sources)) == Failure(r.error.cause)
            && r.error.message == InterpolationErrorMessage)
      && (r.Failure? && r.error.ReadFailed? <==> file !in files)
  {
  }

  /** The JVM-wide system properties, which the reader changes in place. */
  class SystemProperties {
    var properties: map<string, string>

    constructor (properties: map<string, string>)
      ensures this.properties == properties
    {
      this.properties := properties;
    }
  }

  /** A reader for one project and locale; both may be null. */
  class Reader {
    const project: Option<ProjectView>
    const locale: Option<Locale>

    constructor (project: Option<ProjectView>, locale: Option<Locale>)
      ensures this.project == project && this.locale == locale
    {
      this.project := project;
      this.locale := locale;
    }

    /**
     * `readAndFilterDocumentDescriptor`: selects the file, merges the project properties into the
     * live system properties (even when the read then fails), registers the four value sources,
     * reads, interpolates and parses without strict checking.
     */
    method ReadAndFilterDocumentDescriptor(docDescriptor: Descriptor, files: TextFiles, system: SystemProperties,
                                           environment: string -> Option<string>, date: string -> Option<string>,
                                           interpolate: (string, string -> Option<string>) -> Result<string, string>,
                                           parse: (string, bool) -> Result<ModelData, string>)
      returns (r: Result<ModelData, ReadError>)
      modifies system
      ensures system.properties == Merged(old(system.properties), project)
      ensures r == ReadOutcome(docDescriptor, locale, project, files.contents, old(system.properties),
                               environment, date, interpolate, parse)
    {
      var descriptor := docDescriptor;
      if locale.Some? {
        var localized := Descriptor(descriptor.parent, LocalizedName(descriptor.name, locale.value.language));
        if localized.Path() in files.contents {
          descriptor := localized;
        }
      }

      if project.Some? && project.value.properties.Some? {
        system.properties := system.properties + project.value.properties.value;
      }

      var sources: seq<ValueSource> := [];
      sources := sources + [PropertiesSource(system.properties)];
      sources := sources + [EnvironmentSource(environment)];
      sources := sources + [ProjectSource(project)];
      sources := sources + [DateSource(date)];

      assert sources == ValueSources(Merged(old(system.properties), project), environment, project, date);
      var file := descriptor.Path();
      if file !in files.contents {
        return Failure(ReadFailed(file));
      }
      var interpolated := interpolate(files.contents[file], Resolver(sources));
      if interpolated.Failure? {
        return Failure(InterpolationFailed(InterpolationErrorMessage, interpolated.error));
      }
      var parsed := parse(interpolated.value, false);
      if parsed.Failure? {
        return Failure(ParseFailed(parsed.error));
      }
      r := Success(parsed.value);
    }
  }
}
