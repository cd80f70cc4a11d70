/** The content registry (src/services/contentRegistry.js): the static
    knowledge tagged as static, and the dynamic sources the chatbot loads
    at start-up, each with the API keys holding its records and the
    extractor that turns them into entries. The `fetch` of each source is
    the caller's business and is not part of a `Source`. */
module Registry {
  import opened Wrappers
  import opened Records
  import Knowledge

  /** `{...entry, sourceType: 'static'}` over a list of entries. */
  function TagStatic(table: seq<Entry>): (r: seq<Entry>)
    ensures |r| == |table|
    ensures forall i :: 0 <= i < |r| ==> r[i].sourceType == Static
    ensures forall i :: 0 <= i < |r| ==> r[i].(sourceType := table[i].sourceType) == table[i]
  {
    seq(|table|, i requires 0 <= i < |table| => table[i].(sourceType := Static))
  }

  /** staticEntries: the knowledge table tagged as static. */
  const StaticEntries: seq<Entry> := TagStatic(Knowledge.Table)

  const AcademicPrograms: Source := Source("academic-programs", "Academic Programs", "/academics", None,
    ["academics", "programs", "courses"], ["programs"], "generic")
  const NewsEvents: Source := Source("news-events", "News & Events", "/news", None,
    ["news", "events", "updates"], ["news_items", "news", "events"], "generic")
  const Announcements: Source := Source("announcements", "Announcements", "/news", Some("announcements"),
    ["announcements", "updates", "notices"], ["announcements"], "generic")
  const Events: Source := Source("events", "Events", "/news", Some("events"),
    ["events", "calendar", "activities"], ["events"], "generic")
  const Achievements: Source := Source("achievements", "Achievements", "/news", Some("achievements"),
    ["achievements", "awards", "recognition"], ["achievements"], "generic")
  const News: Source := Source("news", "News", "/news", Some("news"),
    ["news", "announcements", "latest"], ["news"], "generic")
  const Downloads: Source := Source("downloads", "Downloads", "/downloads", None,
    ["downloads", "forms", "documents"], ["downloads"], "downloads")
  const Departments: Source := Source("departments", "Departments", "/faculty", None,
    ["departments", "faculty", "staff"], ["departments"], "generic")
  const Personnel: Source := Source("personnel", "Faculty & Staff", "/faculty", None,
    ["faculty", "staff", "personnel"], ["personnel"], "generic")
  const InstitutionalInfo: Source := Source("institutional-info", "Institutional Info", "/about", None,
    ["mission", "vision", "goals", "core values", "about"], ["institutional_info"], "institutional")
  const AdmissionsInfo: Source := Source("admissions-info", "Admissions", "/admissions", None,
    ["admissions", "requirements", "enrollment"], [], "admissions")

  /** dynamicSources, in load order. */
  const DynamicSources: seq<Source> := [AcademicPrograms, NewsEvents, Announcements, Events,
    Achievements, News, Downloads, Departments, Personnel, InstitutionalInfo, AdmissionsInfo]

  /** The extractor tag a source id is registered with. */
  function ExtractorFor(id: string): string
  {
    if id == "downloads" then "downloads"
    else if id == "institutional-info" then "institutional"
    else if id == "admissions-info" then "admissions"
    else "generic"
  }

  /** There are eleven sources with pairwise distinct ids. */
  lemma SourceIdsDistinct()
    ensures |DynamicSources| == 11
    ensures forall i, j :: 0 <= i < j < |DynamicSources| ==> DynamicSources[i].id != DynamicSources[j].id
  {
  }

  /** Each source uses the special extractor named after it, and the
      generic one otherwise. */
  lemma ExtractorTags()
    ensures forall i :: 0 <= i < |DynamicSources| ==>
      DynamicSources[i].extractor == ExtractorFor(DynamicSources[i].id)
  {
  }

  /** Exactly announcements, events, achievements and news carry a
      section, and it is their own id. */
  lemma Sections()
    ensures forall i :: 0 <= i < |DynamicSources| ==>
      (DynamicSources[i].section.Some? <==>
        DynamicSources[i].id in {"announcements", "events", "achievements", "news"})
    ensures forall i :: 0 <= i < |DynamicSources| && DynamicSources[i].section.Some? ==>
      DynamicSources[i].section.value == DynamicSources[i].id
  {
  }
}
