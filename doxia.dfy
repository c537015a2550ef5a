/**
 * The Doxia document model the plugin fills in: a document's meta data, cover and
 * table of contents (TOC). Items of a TOC are values: each item owns its children.
 */
module Doxia {
  import opened Wrappers

  /** `DocumentTOCItem`: a display name, a reference to rendered content, and sub-items in order. */
  datatype TocItem = TocItem(name: Option<string>, ref: Option<string>, items: seq<TocItem>)

  /** The two `DocumentMeta` properties the plugin reads and defaults. */
  datatype Meta = Meta(language: Option<string>, generator: Option<string>)

  /** What a descriptor parse or the default-model builder hands over to make a `DocumentModel`. */
  datatype ModelData = ModelData(
    meta: Option<Meta>,
    coverType: Option<string>,
    outputName: Option<string>,
    tocName: Option<string>,
    tocItems: seq<TocItem>)

  /** `DocumentTOC`: the top level of a document's TOC, mutated by appending items. */
  class DocumentToc {
    var name: Option<string>
    var items: seq<TocItem>

    constructor (name: Option<string>, items: seq<TocItem>)
      ensures this.name == name && this.items == items
    {
      this.name := name;
      this.items := items;
    }

    /** `DocumentTOC.addItem`: the item goes to the end. */
    method AddItem(item: TocItem)
      modifies this
      ensures items == old(items) + [item]
      ensures name == old(name)
    {
      items := items + [item];
    }
  }

  /** `DocumentModel`, one per rendered locale. */
  class DocumentModel {
    var meta: Option<Meta>
    var coverType: Option<string>
    var outputName: Option<string>
    const toc: DocumentToc

    constructor (data: ModelData)
      ensures meta == data.meta && coverType == data.coverType && outputName == data.outputName
      ensures fresh(toc) && toc.name == data.tocName && toc.items == data.tocItems
    {
      meta := data.meta;
      coverType := data.coverType;
      outputName := data.outputName;
      toc := new DocumentToc(data.tocName, data.tocItems);
    }
  }
}
