/**
 * `TocFileHelper`: saves a module's TOC to `toc.json` in its working directory and loads it
 * back as a generic tree, so that an aggregating build can stitch module TOCs together.
 * There is one slot per working directory; the locale plays no part in where or what is written.
 */
module TocFileHelper {
  import opened Wrappers
  import opened JavaLib
  import opened Doxia

  /**
   * The generic tree a `toc.json` object parses to: `name` and `ref` are strings or null, and
   * `items` is a list of objects of the same shape, or missing (absent key or null).
   */
  datatype TocNode = TocNode(name: Option<string>, ref: Option<string>, items: Items)

  /** The value under an `items` key. */
  datatype Items = Missing | Present(nodes: seq<TocNode>)

  /** The JSON object written for one `DocumentTOCItem` (its `name`, `ref` and `items` properties). */
  function EncodeItem(t: TocItem): (n: TocNode)
    decreases t
  {
    TocNode(t.name, t.ref, Present(EncodeItems(t.items)))
  }

  /** A list of items is written as a JSON array of their objects, in order. */
  function EncodeItems(ts: seq<TocItem>): (ns: seq<TocNode>)
    ensures |ns| == |ts|
    ensures forall i :: 0 <= i < |ts| ==> ns[i] == EncodeItem(ts[i])
    decreases ts
  {
    if ts == [] then [] else [EncodeItem(ts[0])] + EncodeItems(ts[1..])
  }

  /** The JSON object written for a `DocumentTOC`: a name and the top-level items, no `ref`. */
  function EncodeToc(name: Option<string>, items: seq<TocItem>): TocNode
  {
    TocNode(name, None, Present(EncodeItems(items)))
  }

  /** Reads a generic tree back as TOC items; fails where some `items` list is missing. */
  function DecodeItem(n: TocNode): Option<TocItem>
    decreases n
  {
    match n.items
    case Missing => None
    case Present(ns) =>
      match DecodeItems(ns)
      case None => None
      case Some(ts) => Some(TocItem(n.name, n.ref, ts))
  }

  function DecodeItems(ns: seq<TocNode>): Option<seq<TocItem>>
    decreases ns
  {
    if ns == [] then Some([])
    else
      match DecodeItem(ns[0])
      case None => None
      case Some(t) =>
        match DecodeItems(ns[1..])
        case None => None
        case Some(ts) => Some([t] + ts)
  }

  /** Decoding an encoded item gives back the item: names, refs, nesting and order survive. */
  lemma {:induction false} DecodeEncodeItem(t: TocItem)
    ensures DecodeItem(EncodeItem(t)) == Some(t)
    decreases t, 1
  {
    DecodeEncodeItems(t.items);
  }

  lemma {:induction false} DecodeEncodeItems(ts: seq<TocItem>)
    ensures DecodeItems(EncodeItems(ts)) == Some(ts)
    decreases ts, 0
  {
    if ts != [] {
      assert ts[0] in ts;
      DecodeEncodeItem(ts[0]);
      DecodeEncodeItems(ts[1..]);
      var ns := EncodeItems(ts);
      assert ns == [EncodeItem(ts[0])] + EncodeItems(ts[1..]);
      assert ns[0] == EncodeItem(ts[0]) && ns[1..] == EncodeItems(ts[1..]);
      assert [ts[0]] + ts[1..] == ts;
    }
  }

  const FileName: string := "toc.json"

  /** `getTocFile`: the TOC of a working directory lives in its `toc.json`. */
  function TocFile(workingDirectory: Path): Path
  {
    Child(workingDirectory, FileName)
  }

  /** Why `loadToc` throws an IOException. */
  datatype LoadError = FileNotFound(path: Path)

  /** The slots after writing `tree` for a working directory: that slot is overwritten. */
  function Saved(files: map<Path, TocNode>, workingDirectory: Path, tree: TocNode): map<Path, TocNode>
  {
    files[TocFile(workingDirectory) := tree]
  }

  /** What reading a working directory's slot yields: its tree, or an IOException when it is absent. */
  function Loaded(files: map<Path, TocNode>, workingDirectory: Path): Result<TocNode, LoadError>
  {
    var f := TocFile(workingDirectory);
    if f in files then Success(files[f]) else Failure(FileNotFound(f))
  }

  /** The `toc.json` files on disk. */
  class TocStore {
    var files: map<Path, TocNode>

    constructor (files: map<Path, TocNode>)
      ensures this.files == files
    {
      this.files := files;
    }

    /** `saveTOC`: overwrites the directory's slot with the TOC; the locale is not used. */
    method SaveToc(workingDirectory: Path, toc: DocumentToc, locale: Locale)
      modifies this
      ensures files == Saved(old(files), workingDirectory, EncodeToc(toc.name, toc.items))
    {
      files := files[TocFile(workingDirectory) := EncodeToc(toc.name, toc.items)];
    }

    /** `loadToc`: the directory's saved tree, or a failure when no TOC was saved there. */
    method LoadToc(workingDirectory: Path) returns (r: Result<TocNode, LoadError>)
      ensures r.Success? <==> TocFile(workingDirectory) in files
      ensures r.Success? ==> r.value == files[TocFile(workingDirectory)]
      ensures r == Loaded(files, workingDirectory)
    {
      var f := TocFile(workingDirectory);
      if f in files {
        r := Success(files[f]);
      } else {
        r := Failure(FileNotFound(f));
      }
    }
  }

  /**
   * Loading after saving gives back the saved TOC: the same name, and items that decode to the
   * saved items with the same names, refs, nesting and order.
   */
  lemma LoadAfterSave(files: map<Path, TocNode>, workingDirectory: Path, name: Option<string>, items: seq<TocItem>)
    ensures var r := Loaded(Saved(files, workingDirectory, EncodeToc(name, items)), workingDirectory);
      r.Success? && r.value.name == name && r.value.items.Present?
      && DecodeItems(r.value.items.nodes) == Some(items)
  {
    DecodeEncodeItems(items);
  }

  /** Saving twice into one directory (say for two locales) leaves only the second TOC. */
  lemma LastSaveWins(files: map<Path, TocNode>, workingDirectory: Path, first: TocNode, second: TocNode)
    ensures Saved(Saved(files, workingDirectory, first), workingDirectory, second)
         == Saved(files, workingDirectory, second)
  {
  }

  /** Saving into one directory leaves what every other directory loads unchanged. */
  lemma SaveKeepsOtherDirectories(files: map<Path, TocNode>, saved: Path, other: Path, tree: TocNode)
    requires saved != other
    ensures Loaded(Saved(files, saved, tree), other) == Loaded(files, other)
  {
    if TocFile(saved) == TocFile(other) {
      ChildParentInjective(saved, other, FileName);
    }
  }

  /** Saving changes only the directory's own slot. */
  lemma SavedOnlyChangesSlot(files: map<Path, TocNode>, workingDirectory: Path, tree: TocNode)
    ensures Saved(files, workingDirectory, tree) - {TocFile(workingDirectory)} == files - {TocFile(workingDirectory)}
  {
  }

  /** Whatever the directory's slot held before, saving into it leaves the same slots. */
  lemma SavedIgnoresPreviousSlot(files: map<Path, TocNode>, other: map<Path, TocNode>, workingDirectory: Path,
                                 tree: TocNode)
    requires files - {TocFile(workingDirectory)} == other - {TocFile(workingDirectory)}
    ensures Saved(files, workingDirectory, tree) == Saved(other, workingDirectory, tree)
  {
    var f := TocFile(workingDirectory);
    forall g | g != f
      ensures g in files <==> g in other
      ensures g in files ==> files[g] == other[g]
    {
      assert g in files <==> g in files - {f};
      assert g in other <==> g in other - {f};
      if g in files {
        assert (files - {f})[g] == files[g];
        assert (other - {f})[g] == other[g];
      }
    }
  }
}

