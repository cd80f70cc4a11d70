/** The knowledge entries every layer of the chatbot passes around, and the
    descriptors of the dynamic content sources. A missing `details`,
    `actions` or `extra` field is the empty list or the empty string: every
    reader treats them alike (`|| []`, `|| ''`, `Array.isArray`). */
module Records {
  import opened Wrappers

  /** The `sourceType` tag: absent in the raw table, `'static'` or
      `'dynamic'` once registered or extracted. */
  datatype SourceType = Unset | Static | Dynamic

  datatype Entry = Entry(
    id: string,
    title: string,
    url: string,
    summary: string,
    keywords: seq<string>,
    details: seq<string>,
    actions: seq<string>,
    extra: string,
    sourceType: SourceType)

  /** A dynamic source: where its records live on the site and how its API
      response is turned into entries (`extractor`). */
  datatype Source = Source(
    id: string,
    title: string,
    url: string,
    section: Option<string>,
    keywords: seq<string>,
    keys: seq<string>,
    extractor: string)
}
