/** The static knowledge table of the chatbot (src/utils/chatbotKnowledge.js):
    one entry per page of the site, with the words that lead to it, what
    the page holds and what a visitor can do there. */
module Knowledge {
  import opened Strs
  import opened Records

  const HomeKeywords: seq<string> := ["home", "homepage", "overview", "ccb", "highlights", "welcome", "quick links", "announcements", "updates"]

  const HomeEntry: Entry := Entry(
    id := "home",
    title := "Home",
    url := "/",
    summary := "Overview of City College of Bayawan, highlights, quick links, announcements, and featured updates.",
    keywords := HomeKeywords,
    details := [
      "Latest announcements, events, achievements, and news highlights",
      "Hero sections and campus overview content",
      "Quick links to Admissions, Academics, and Contact"],
    actions := [
      "Browse the latest updates carousel",
      "Jump to featured sections and quick links",
      "Open News & Events for full listings"],
    extra := "",
    sourceType := Unset)

  const ServicesMenuKeywords: seq<string> := ["services", "menu", "dropdown", "library", "giya", "student affairs", "registrar"]

  const ServicesMenuEntry: Entry := Entry(
    id := "services-menu",
    title := "Services Menu",
    url := "/",
    summary := "Services dropdown in the main navigation for library, GIYA Center, student affairs, and registrar.",
    keywords := ServicesMenuKeywords,
    details := [
      "Services dropdown is in the top navigation bar",
      "Links open in a new tab for official service pages"],
    actions := [
      "Open the Services dropdown in the navbar",
      "Select the service link you need"],
    extra := "",
    sourceType := Unset)

  const AcademicsKeywords: seq<string> := ["academics", "programs", "courses", "curriculum", "degree", "program list", "department", "specialization"]

  const AcademicsEntry: Entry := Entry(
    id := "academics",
    title := "Academic Programs",
    url := "/academics",
    summary := "Programs, course offerings, program details, and academic pathways for each department.",
    keywords := AcademicsKeywords,
    details := [
      "Degree program list with descriptions and durations",
      "Program overviews, core courses, and career prospects",
      "Specializations and department information"],
    actions := [
      "Review program descriptions and course outlines",
      "Compare program duration and units",
      "Check specializations within each program"],
    extra := "",
    sourceType := Unset)

  const AdmissionsKeywords: seq<string> := ["admissions", "apply", "application", "requirements", "enrollment", "how to apply", "steps", "process"]

  const AdmissionsEntry: Entry := Entry(
    id := "admissions",
    title := "Admissions",
    url := "/admissions",
    summary := "Admission requirements, enrollment process, and step-by-step guidance for new and transferring students.",
    keywords := AdmissionsKeywords,
    details := [
      "Requirements per applicant category (scholar/non-scholar, new/continuing)",
      "Enrollment process steps and timelines",
      "Important notes and reminders"],
    actions := [
      "Choose your applicant category tab",
      "Follow the enrollment steps in order",
      "Use Contact Us for admissions inquiries"],
    extra := "",
    sourceType := Unset)

  const StudentsKeywords: seq<string> := ["students", "student services", "guidelines", "activities", "resources", "campus life", "support"]

  const StudentsEntry: Entry := Entry(
    id := "students",
    title := "Students",
    url := "/students",
    summary := "Student resources, guidelines, activities, support services, and campus life information.",
    keywords := StudentsKeywords,
    details := [
      "Student handbook and academic calendar",
      "Student services and campus life highlights",
      "Campus activities and event listings"],
    actions := [
      "Open the student handbook and calendar sections",
      "Review campus activities and events",
      "Explore student services and support"],
    extra := "",
    sourceType := Unset)

  const FacultyKeywords: seq<string> := ["faculty", "staff", "departments", "directory", "professors", "instructors", "contacts"]

  const FacultyEntry: Entry := Entry(
    id := "faculty",
    title := "Faculty & Staff",
    url := "/faculty",
    summary := "Faculty and staff directory, departments, academic leadership, and contacts.",
    keywords := FacultyKeywords,
    details := [
      "Department directory with heads and contacts",
      "Faculty and staff listings by department",
      "Administrative offices and support units"],
    actions := [
      "Locate a department contact",
      "Review department personnel lists",
      "Find administrative office details"],
    extra := "",
    sourceType := Unset)

  const AboutKeywords: seq<string> := ["about", "mission", "vision", "goals", "core values", "history", "background", "institution"]

  const AboutEntry: Entry := Entry(
    id := "about",
    title := "About Us",
    url := "/about",
    summary := "Mission, vision, goals, core values, and institutional background of the college.",
    keywords := AboutKeywords,
    details := [
      "Institutional history and milestones",
      "Mission, vision, goals, and core values",
      "Administrative officers and facilities"],
    actions := [
      "Open Mission & Vision details",
      "Review the organizational chart",
      "Check administrative officers and campus facilities"],
    extra := "",
    sourceType := Unset)

  const NewsKeywords: seq<string> := ["news", "events", "announcements", "updates", "achievements", "latest", "recent", "campus"]

  const NewsEntry: Entry := Entry(
    id := "news",
    title := "News & Events",
    url := "/news",
    summary := "Latest announcements, events, achievements, and campus updates.",
    keywords := NewsKeywords,
    details := [
      "Announcements, news, achievements, and events sections",
      "Calendar view with dates and highlights",
      "Modal details for each item"],
    actions := [
      "Open the Events section: [Events](/news?section=events)",
      "Open the News section: [News](/news?section=news)",
      "Open Announcements: [Announcements](/news?section=announcements)",
      "Open Achievements: [Achievements](/news?section=achievements)"],
    extra := "",
    sourceType := Unset)

  const DownloadsKeywords: seq<string> := ["downloads", "forms", "documents", "resources", "files", "pdf"]

  const DownloadsEntry: Entry := Entry(
    id := "downloads",
    title := "Downloads",
    url := "/downloads",
    summary := "Forms, documents, and downloadable resources for students and staff.",
    keywords := DownloadsKeywords,
    details := [
      "Enrollment, clearance, and request forms",
      "HR policies, HR forms, syllabi, manuals, and handbooks",
      "Category-based downloads with pagination"],
    actions := [
      "Open Forms section: [Forms](/downloads#forms)",
      "Open HR Policies & Forms: [HR Policies](/downloads#hr-policies)",
      "Open Documents section: [Syllabi & Manuals](/downloads#documents)"],
    extra := "",
    sourceType := Unset)

  const ContactKeywords: seq<string> := ["contact", "email", "inquiries", "support", "reach us", "message", "help"]

  const ContactEntry: Entry := Entry(
    id := "contact",
    title := "Contact Us",
    url := "/contact",
    summary := "Contact form, email verification, and ways to reach the college.",
    keywords := ContactKeywords,
    details := [
      "Contact form with subject categories",
      "Office address, phone numbers, and email",
      "Campus location map"],
    actions := [
      "Send a message using the contact form",
      "Check office hours and contact details",
      "Use the map to locate the campus"],
    extra := "",
    sourceType := Unset)

  const CcbLogoKeywords: seq<string> := ["logo", "branding", "ccb logo", "assets", "identity", "seal"]

  const CcbLogoEntry: Entry := Entry(
    id := "ccb-logo",
    title := "CCB Logo",
    url := "/ccb-logo",
    summary := "Official college logo and branding assets.",
    keywords := CcbLogoKeywords,
    details := [
      "Official branding elements and logo assets",
      "Usage guidance for CCB identity"],
    actions := [
      "View and reference official logo assets",
      "Review branding guidelines if available"],
    extra := "",
    sourceType := Unset)

  /** The table in source order. */
  const Table: seq<Entry> := [
    HomeEntry,
    ServicesMenuEntry,
    AcademicsEntry,
    AdmissionsEntry,
    StudentsEntry,
    FacultyEntry,
    AboutEntry,
    NewsEntry,
    DownloadsEntry,
    ContactEntry,
    CcbLogoEntry
  ]

  /** The ids of the table, in order. */
  const Ids: seq<string> := ["home", "services-menu", "academics", "admissions", "students", "faculty",
   "about", "news", "downloads", "contact", "ccb-logo"]

  /** No upper-case ASCII letter. */
  predicate IsLowerText(s: string)
  {
    forall c :: c in s ==> !('A' <= c <= 'Z')
  }

  /** Every keyword is lower case. */
  predicate AllLower(ks: seq<string>)
  {
    forall k :: 0 <= k < |ks| ==> IsLowerText(ks[k])
  }

  /** What an entry has besides its keywords: a title and a summary, a site
      path, at least one detail and one action, and no source tag yet. */
  predicate Shaped(e: Entry)
  {
    e.title != "" && e.summary != "" && e.url != [] && e.url[0] == '/'
    && e.details != [] && e.actions != []
    && e.sourceType == Unset
  }

  /** What every entry of the table has: its shape and lower-case keywords. */
  predicate WellFormed(e: Entry)
  {
    Shaped(e) && AllLower(e.keywords)
  }

  /** The ids are pairwise distinct. */
  lemma IdsDistinct()
    ensures forall i, j :: 0 <= i < j < |Ids| ==> Ids[i] != Ids[j]
  {
  }

  /** The table has eleven entries with pairwise distinct ids. */
  lemma TableIds()
    ensures |Table| == 11
    ensures forall i, j :: 0 <= i < j < |Table| ==> Table[i].id != Table[j].id
  {
    IdsDistinct();
    assert forall i :: 0 <= i < |Table| ==> Table[i].id == Ids[i];
  }

  // One lemma per entry keeps each proof to the text of that entry.

  lemma HomeLower()
    ensures AllLower(HomeKeywords)
  {
  }

  lemma HomeShaped()
    ensures Shaped(HomeEntry) && HomeEntry.keywords == HomeKeywords
  {
  }

  lemma ServicesMenuLower()
    ensures AllLower(ServicesMenuKeywords)
  {
  }

  lemma ServicesMenuShaped()
    ensures Shaped(ServicesMenuEntry) && ServicesMenuEntry.keywords == ServicesMenuKeywords
  {
  }

  lemma AcademicsLower()
    ensures AllLower(AcademicsKeywords)
  {
  }

  lemma AcademicsShaped()
    ensures Shaped(AcademicsEntry) && AcademicsEntry.keywords == AcademicsKeywords
  {
  }

  lemma AdmissionsLower()
    ensures AllLower(AdmissionsKeywords)
  {
  }

  lemma AdmissionsShaped()
    ensures Shaped(AdmissionsEntry) && AdmissionsEntry.keywords == AdmissionsKeywords
  {
  }

  lemma StudentsLower()
    ensures AllLower(StudentsKeywords)
  {
  }

  lemma StudentsShaped()
    ensures Shaped(StudentsEntry) && StudentsEntry.keywords == StudentsKeywords
  {
  }

  lemma FacultyLower()
    ensures AllLower(FacultyKeywords)
  {
  }

  lemma FacultyShaped()
    ensures Shaped(FacultyEntry) && FacultyEntry.keywords == FacultyKeywords
  {
  }

  lemma AboutLower()
    ensures AllLower(AboutKeywords)
  {
  }

  lemma AboutShaped()
    ensures Shaped(AboutEntry) && AboutEntry.keywords == AboutKeywords
  {
  }

  lemma NewsLower()
    ensures AllLower(NewsKeywords)
  {
  }

  lemma NewsShaped()
    ensures Shaped(NewsEntry) && NewsEntry.keywords == NewsKeywords
  {
  }

  lemma DownloadsLower()
    ensures AllLower(DownloadsKeywords)
  {
  }

  lemma DownloadsShaped()
    ensures Shaped(DownloadsEntry) && DownloadsEntry.keywords == DownloadsKeywords
  {
  }

  lemma ContactLower()
    ensures AllLower(ContactKeywords)
  {
  }

  lemma ContactShaped()
    ensures Shaped(ContactEntry) && ContactEntry.keywords == ContactKeywords
  {
  }

  lemma CcbLogoLower()
    ensures AllLower(CcbLogoKeywords)
  {
  }

  lemma CcbLogoShaped()
    ensures Shaped(CcbLogoEntry) && CcbLogoEntry.keywords == CcbLogoKeywords
  {
  }

  /** Every entry of the table is well formed. */
  lemma TableWellFormed()
    ensures forall i :: 0 <= i < |Table| ==> WellFormed(Table[i])
  {
    HomeLower();
    HomeShaped();
    ServicesMenuLower();
    ServicesMenuShaped();
    AcademicsLower();
    AcademicsShaped();
    AdmissionsLower();
    AdmissionsShaped();
    StudentsLower();
    StudentsShaped();
    FacultyLower();
    FacultyShaped();
    AboutLower();
    AboutShaped();
    NewsLower();
    NewsShaped();
    DownloadsLower();
    DownloadsShaped();
    ContactLower();
    ContactShaped();
    CcbLogoLower();
    CcbLogoShaped();
  }

  /** The admissions entry leads to /admissions and answers "apply". */
  lemma AdmissionsEntryApply()
    ensures exists i :: (0 <= i < |Table| && Table[i].id == "admissions"
      && Table[i].url == "/admissions" && "apply" in Table[i].keywords)
  {
    assert Table[3] == AdmissionsEntry;
  }
}
