/** Page mentions (src/services/entityExtractor.js): the pages of the
    portal whose keyword list has a keyword inside the normalised
    message, in table order. */
module Entities {
  import opened Strs
  import opened Text

  datatype Page = Page(id: string, keywords: seq<string>)

  datatype Entities = Entities(normalized: string, pageMentions: seq<string>)

  const HomeWords: seq<string> := ["home", "homepage", "welcome"]
  const AcademicsWords: seq<string> := ["academics", "programs", "courses", "degree"]
  const AdmissionsWords: seq<string> := ["admissions", "enroll", "enrollment", "apply", "requirements"]
  const NewsWords: seq<string> := ["news", "events", "announcements", "achievements", "updates"]
  const DownloadsWords: seq<string> := ["downloads", "forms", "documents", "files"]
  const StudentsWords: seq<string> := ["students", "student", "campus life", "services"]
  const FacultyWords: seq<string> := ["faculty", "staff", "departments", "personnel"]
  const AboutWords: seq<string> := ["about", "mission", "vision", "goals", "core values", "history"]
  const ContactWords: seq<string> := ["contact", "email", "phone", "address"]

  const PageIds: seq<string> := ["home", "academics", "admissions", "news", "downloads", "students",
    "faculty", "about", "contact"]

  /** PAGE_KEYWORDS. */
  const PageKeywords: seq<Page> := [
    Page("home", HomeWords), Page("academics", AcademicsWords), Page("admissions", AdmissionsWords),
    Page("news", NewsWords), Page("downloads", DownloadsWords), Page("students", StudentsWords),
    Page("faculty", FacultyWords), Page("about", AboutWords), Page("contact", ContactWords)
  ]

  /** Some keyword of the page is a substring of the normalised message. */
  predicate Mentions(normalized: string, page: Page)
  {
    exists k :: 0 <= k < |page.keywords| && Contains(normalized, page.keywords[k])
  }

  /** `pages.filter(mentioned).map((page) => page.id)`. */
  function MentionedIds(normalized: string, pages: seq<Page>): (r: seq<string>)
    ensures |r| <= |pages|
    ensures forall x :: x in r <==> exists i :: 0 <= i < |pages| && pages[i].id == x && Mentions(normalized, pages[i])
  {
    if pages == [] then []
    else
      var init := pages[..|pages| - 1];
      var last := pages[|pages| - 1];
      var rest := MentionedIds(normalized, init);
      assert forall i :: 0 <= i < |init| ==> pages[i] == init[i];
      rest + (if Mentions(normalized, last) then [last.id] else [])
  }

  /** extractEntities. */
  function ExtractEntities(message: string): (r: Entities)
    ensures r.normalized == NormalizeText(message)
    ensures forall x :: x in r.pageMentions <==>
      exists i :: 0 <= i < |PageKeywords| && PageKeywords[i].id == x && Mentions(r.normalized, PageKeywords[i])
  {
    var normalized := NormalizeText(message);
    Entities(normalized, MentionedIds(normalized, PageKeywords))
  }

  /** The mentioned ids come from strictly increasing table positions,
      and every mentioned page is among them: the ids are listed in table
      order, each mentioned page once. */
  lemma {:induction false} MentionPositions(normalized: string, pages: seq<Page>) returns (pos: seq<nat>)
    ensures |pos| == |MentionedIds(normalized, pages)|
    ensures forall k :: 0 <= k < |pos| ==>
      (pos[k] < |pages| && Mentions(normalized, pages[pos[k]]) && MentionedIds(normalized, pages)[k] == pages[pos[k]].id)
    ensures forall a, b :: 0 <= a < b < |pos| ==> pos[a] < pos[b]
    ensures forall i :: 0 <= i < |pages| && Mentions(normalized, pages[i]) ==> i in pos
  {
    if pages == [] {
      pos := [];
    } else {
      var m := |pages| - 1;
      var init := pages[..m];
      var before := MentionPositions(normalized, init);
      var r := MentionedIds(normalized, pages);
      var rest := MentionedIds(normalized, init);
      assert forall i :: 0 <= i < m ==> init[i] == pages[i];
      pos := before + (if Mentions(normalized, pages[m]) then [m] else []);
      assert r == rest + (if Mentions(normalized, pages[m]) then [pages[m].id] else []);
      forall k | 0 <= k < |pos|
        ensures pos[k] < |pages| && Mentions(normalized, pages[pos[k]]) && r[k] == pages[pos[k]].id
      {
        if k < |before| {
          assert pos[k] == before[k] && r[k] == rest[k];
        }
      }
      forall i | 0 <= i < |pages| && Mentions(normalized, pages[i])
        ensures i in pos
      {
        if i < m {
          assert Mentions(normalized, init[i]);
          assert i in before;
        } else {
          assert pos[|before|] == m;
        }
      }
      forall a, b | 0 <= a < b < |pos|
        ensures pos[a] < pos[b]
      {
        if b == |before| {
          assert pos[a] == before[a] < m;
        }
      }
    }
  }

  /** A message with no characters left after normalisation mentions no
      page, as long as no keyword is empty. */
  lemma {:induction false} NothingMentioned(pages: seq<Page>)
    requires forall i, k :: 0 <= i < |pages| && 0 <= k < |pages[i].keywords| ==> pages[i].keywords[k] != ""
    ensures MentionedIds("", pages) == []
  {
    if pages != [] {
      NothingMentioned(pages[..|pages| - 1]);
    }
  }

  /** The table: nine pages with the ids of PageIds, pairwise distinct,
      and no empty keyword. */
  lemma TableFacts()
    ensures |PageKeywords| == 9
    ensures forall i :: 0 <= i < 9 ==> PageKeywords[i].id == PageIds[i]
    ensures forall i, j :: 0 <= i < j < |PageIds| ==> PageIds[i] != PageIds[j]
    ensures forall i, k :: 0 <= i < |PageKeywords| && 0 <= k < |PageKeywords[i].keywords| ==> PageKeywords[i].keywords[k] != ""
  {
  }

  /** pageMentions lists mentioned pages of the table without duplicates
      and in table order. */
  lemma PageMentionsOrdered(message: string) returns (pos: seq<nat>)
    ensures var r := ExtractEntities(message).pageMentions;
      |pos| == |r| && (forall k :: 0 <= k < |r| ==> pos[k] < |PageIds| && r[k] == PageIds[pos[k]])
      && (forall a, b :: 0 <= a < b < |r| ==> pos[a] < pos[b] && r[a] != r[b])
  {
    TableFacts();
    pos := MentionPositions(NormalizeText(message), PageKeywords);
  }

  /** pageMentions are ids of the table. */
  lemma MentionsAreIds(message: string)
    ensures forall x :: x in ExtractEntities(message).pageMentions ==> x in PageIds
  {
    TableFacts();
  }

  /** A message that normalises to nothing, the empty one among them,
      mentions no page. */
  lemma EmptyMentionsNothing(message: string)
    requires NormalizeText(message) == ""
    ensures ExtractEntities(message).pageMentions == []
  {
    TableFacts();
    NothingMentioned(PageKeywords);
  }
}
