/** The snippet record the whole application passes around (`SavedItem`
    in types.ts), with the two fields the components use but the interface
    does not declare: `isFavorite` and `folderId`. */
module Types {

  datatype Option<T> = None | Some(value: T)

  datatype CodeBlock = CodeBlock(language: string, code: string)

  datatype SourcePlatform = ChatGPT | Gemini | Other

  /** The page a snippet was captured from: `{ url, pageTitle }`. */
  datatype PageContext = PageContext(url: string, pageTitle: string)

  /** A saved snippet. `timestamp` is the instant the ISO string in the
      source denotes, as an integer; `folderId` is `None` for both a missing
      and a `null` folder. */
  datatype SavedItem = SavedItem(
    id: string,
    text: string,
    markdown: string,
    summary: string,
    tags: seq<string>,
    codeBlocks: seq<CodeBlock>,
    images: seq<string>,
    model: string,
    url: string,
    pageTitle: string,
    timestamp: int,
    sourcePlatform: SourcePlatform,
    isFavorite: bool,
    folderId: Option<string>)

  /** `Omit<SavedItem, 'id'>` as the add dialog builds it: everything but the
      id, the favourite flag and the folder, which it never sets. */
  datatype ItemDraft = ItemDraft(
    text: string,
    markdown: string,
    summary: string,
    tags: seq<string>,
    codeBlocks: seq<CodeBlock>,
    images: seq<string>,
    model: string,
    url: string,
    pageTitle: string,
    timestamp: int,
    sourcePlatform: SourcePlatform)
}
