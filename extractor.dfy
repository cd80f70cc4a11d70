/** Turning the portal's API records into knowledge entries
    (src/services/contentExtractor.js): a generic strategy driven by a
    source descriptor, and three special strategies for admissions,
    institutional information and downloads.

    Reading a property of `null` or `undefined` throws in JavaScript; the
    special builders do that for null items, and the whole extraction of
    that source then fails. Such a result is `None` here. */
module Extractor {
  import opened Wrappers
  import opened Strs
  import opened Js
  import opened Text
  import opened Records

  /** The default number of records taken from each list. */
  const DefaultLimit: nat := 6

  /** The most characters a generic entry's summary keeps. */
  const SummaryCap: nat := 260

  /** The record fields a summary is assembled from, in order. */
  const SummaryFields: seq<string> := [
    "description", "summary", "details", "body", "content", "overview",
    "program_overview", "career_prospects", "requirement_text", "text",
    "title", "name", "department_name", "position", "role", "goals", "core_values",
    "mission", "vision", "duration_text", "units_text", "enhancements_text"]

  /** The record fields a title is taken from, by priority. */
  const TitleFields: seq<string> := ["title", "name", "department_name", "position", "role", "short_title"]

  /** The actions every generic entry offers. */
  const DynamicActions: seq<string> := [
    "Open the page for full details",
    "Ask for a specific item to narrow the result"]

  function Min(a: nat, b: nat): (r: nat)
    ensures r <= a && r <= b && (r == a || r == b)
  {
    if a <= b then a else b
  }

  // ---------------------------------------------------------------------
  // Text, summary and title of one record

  /** The strings of a list that are not blank, in order. */
  function TextItems(items: seq<Value>): (r: seq<string>)
    ensures forall s :: s in r <==> Str(s) in items && JsTrim(s) != ""
    ensures |r| <= |items|
  {
    if items == [] then []
    else
      var rest := TextItems(items[1..]);
      assert items == [items[0]] + items[1..];
      if items[0].Str? && JsTrim(items[0].s) != "" then [items[0].s] + rest else rest
  }

  /** extractTextFromValue: a string as it is, a list as its non-blank
      strings joined by spaces, anything else as nothing. */
  function ExtractText(v: Value): (r: string)
    ensures !v.Str? && !v.Arr? ==> r == ""
    ensures v.Str? ==> r == v.s
    ensures v.Arr? ==> r == Join(TextItems(v.items), " ")
  {
    if !Truthy(v) then ""
    else match v
      case Str(s) => s
      case Arr(items) => Join(TextItems(items), " ")
      case _ => ""
  }

  /** The non-empty texts of the given fields of a record, in field order. */
  function FieldTexts(item: Value, fields: seq<string>): (r: seq<string>)
    ensures forall k :: 0 <= k < |r| ==> r[k] != ""
    ensures |r| <= |fields|
  {
    if fields == [] then []
    else
      var prev := FieldTexts(item, fields[..|fields| - 1]);
      var text := ExtractText(Get(item, fields[|fields| - 1]));
      if text != "" then prev + [text] else prev
  }

  /** The pieces of a list-valued field, pushed whenever the field is
      truthy, even when its text is empty. */
  function ListPart(item: Value, field: string): (r: seq<string>)
    ensures Truthy(Get(item, field)) <==> |r| == 1
    ensures !Truthy(Get(item, field)) ==> r == []
  {
    if Truthy(Get(item, field)) then [ExtractText(Get(item, field))] else []
  }

  function SummaryParts(item: Value): seq<string>
  {
    FieldTexts(item, SummaryFields) + ListPart(item, "core_courses") + ListPart(item, "specializations")
  }

  /** buildSummaryFromItem: the non-empty field texts and the two list
      fields joined by spaces and trimmed, or the fallback when that is
      empty or the value is not an object. */
  function Summary(item: Value, fallback: string): (r: string)
    ensures !IsObject(item) ==> r == fallback
    ensures r == fallback || (r != "" && !IsJsSpace(r[0]) && !IsJsSpace(r[|r| - 1]))
    ensures fallback != "" ==> r != ""
  {
    if !IsObject(item) then fallback
    else
      var joined := JsTrim(Join(SummaryParts(item), " "));
      if joined != "" then joined else fallback
  }

  /** Every summary part, trimmed, is a substring of the summary. */
  lemma SummaryContainsParts(item: Value, fallback: string, k: nat)
    requires IsObject(item) && k < |SummaryParts(item)|
    ensures Contains(Summary(item, fallback), JsTrim(SummaryParts(item)[k]))
  {
    var parts := SummaryParts(item);
    var joined := Join(parts, " ");
    JoinContains(parts, " ", k);
    var at: nat :| at <= |joined| && OccursAt(joined, parts[k], at);
    TrimKeepsCore(joined, parts[k], at, IsJsSpace);
    if JsTrim(joined) == "" {
      ContainsLength(JsTrim(joined), JsTrim(parts[k]));
      ContainsEmpty(fallback);
    }
  }

  /** The fallback is taken only when every part is blank: one part with a
      non-space character makes the summary the trimmed join. */
  lemma SummaryFallsBackOnlyWhenBlank(item: Value, fallback: string, k: nat)
    requires IsObject(item) && k < |SummaryParts(item)|
    requires JsTrim(SummaryParts(item)[k]) != ""
    ensures Summary(item, fallback) == JsTrim(Join(SummaryParts(item), " "))
  {
    var parts := SummaryParts(item);
    var joined := Join(parts, " ");
    JoinContains(parts, " ", k);
    var at: nat :| at <= |joined| && OccursAt(joined, parts[k], at);
    TrimKeepsCore(joined, parts[k], at, IsJsSpace);
    ContainsLength(JsTrim(joined), JsTrim(parts[k]));
  }

  /** A record that has none of the summary fields gets the fallback. */
  lemma SummaryOfEmptyRecord(fallback: string)
    ensures Summary(Obj([]), fallback) == fallback
  {
    var item := Obj([]);
    assert FieldTexts(item, SummaryFields) == [] by {
      EmptyFieldTexts(SummaryFields);
    }
    assert SummaryParts(item) == [];
  }

  lemma {:induction false} EmptyFieldTexts(fields: seq<string>)
    ensures FieldTexts(Obj([]), fields) == []
  {
    if fields != [] {
      EmptyFieldTexts(fields[..|fields| - 1]);
    }
  }

  /** One more field adds its text when that is not empty. */
  lemma FieldTextsStep(item: Value, fields: seq<string>, i: nat)
    requires i < |fields|
    ensures FieldTexts(item, fields[..i + 1]) == FieldTexts(item, fields[..i])
      + (if ExtractText(Get(item, fields[i])) != "" then [ExtractText(Get(item, fields[i]))] else [])
  {
    assert fields[..i + 1][..i] == fields[..i];
  }

  /** The `fields.forEach` loop of buildSummaryFromItem. */
  method PushFieldTexts(item: Value, fields: seq<string>) returns (parts: seq<string>)
    ensures parts == FieldTexts(item, fields)
  {
    parts := [];
    var i := 0;
    while i < |fields|
      invariant 0 <= i <= |fields|
      invariant parts == FieldTexts(item, fields[..i])
    {
      var value := ExtractText(Get(item, fields[i]));
      FieldTextsStep(item, fields, i);
      if value != "" {
        parts := parts + [value];
      }
      i := i + 1;
    }
    assert fields[..i] == fields;
  }

  /** buildSummaryFromItem as written: the field loop, then the two list
      fields. */
  method BuildSummaryFromItem(item: Value, fallback: string) returns (summary: string)
    ensures summary == Summary(item, fallback)
  {
    if !IsObject(item) {
      return fallback;
    }
    var parts := PushFieldTexts(item, SummaryFields);
    ghost var fieldParts := parts;
    var courses := Get(item, "core_courses");
    if Truthy(courses) {
      parts := parts + [ExtractText(courses)];
    }
    assert parts == fieldParts + ListPart(item, "core_courses");
    var specializations := Get(item, "specializations");
    if Truthy(specializations) {
      parts := parts + [ExtractText(specializations)];
    }
    assert parts == SummaryParts(item);
    var joined := JsTrim(Join(parts, " "));
    if joined != "" {
      summary := joined;
    } else {
      summary := fallback;
    }
  }

  /** `item[f1] || item[f2] || ... || fallback`. */
  function FirstTruthy(item: Value, fields: seq<string>, fallback: Value): (r: Value)
    ensures Truthy(r) || r == fallback
    ensures (forall k :: 0 <= k < |fields| ==> !Truthy(Get(item, fields[k]))) ==> r == fallback
    ensures forall k :: 0 <= k < |fields| ==>
      (Truthy(Get(item, fields[k])) && (forall j :: 0 <= j < k ==> !Truthy(Get(item, fields[j]))))
      ==> r == Get(item, fields[k])
  {
    if fields == [] then fallback
    else
      var rest := FirstTruthy(item, fields[1..], fallback);
      assert forall k :: 1 <= k < |fields| ==> fields[1..][k - 1] == fields[k];
      Or(Get(item, fields[0]), rest)
  }

  /** buildTitleFromItem: the first truthy title-like field, or the
      fallback (also for values that are not objects). */
  function Title(item: Value, fallback: Value): (r: Value)
    ensures !IsObject(item) ==> r == fallback
    ensures IsObject(item) ==> r == FirstTruthy(item, TitleFields, fallback)
    ensures Truthy(r) || r == fallback
  {
    if !IsObject(item) then fallback else FirstTruthy(item, TitleFields, fallback)
  }

  /** The default title of buildTitleFromItem. */
  const DefaultTitle: Value := Str("Update")

  /** A record's `title` wins over every other title field, and `name`
      is used when there is no title. */
  lemma TitlePriority(item: Value, fallback: Value)
    requires IsObject(item)
    ensures Truthy(Get(item, "title")) ==> Title(item, fallback) == Get(item, "title")
    ensures !Truthy(Get(item, "title")) && Truthy(Get(item, "name")) ==> Title(item, fallback) == Get(item, "name")
  {
    assert TitleFields[0] == "title" && TitleFields[1] == "name";
    if !Truthy(Get(item, "title")) && Truthy(Get(item, "name")) {
      assert forall j :: 0 <= j < 1 ==> !Truthy(Get(item, TitleFields[j]));
    }
  }

  // ---------------------------------------------------------------------
  // Detail lines

  function Line(present: bool, line: string): (r: seq<string>)
    ensures |r| <= 1
  {
    if present then [line] else []
  }

  /** buildDetailsFromItem: at most one line for each of date, location,
      formatted time, start and end time, category, department, office,
      phone and email, in that order. */
  function Details(item: Value): (r: seq<string>)
    ensures |r| <= 9
    ensures !IsObject(item) ==> r == []
  {
    if !IsObject(item) then [] else DetailLines(item, 9)
  }

  /** `date || event_date || achievement_date`. */
  function DateValue(item: Value): Value
  {
    Or(Or(Get(item, "date"), Get(item, "event_date")), Get(item, "achievement_date"))
  }

  /** The k-th of the nine possible detail lines, if its field is set. */
  function DetailLine(item: Value, k: nat): (r: seq<string>)
    requires k < 9
    ensures |r| <= 1
  {
    if k == 0 then Line(Truthy(DateValue(item)), "Date: " + ToStr(DateValue(item)))
    else if k == 1 then Line(Truthy(Get(item, "location")), "Location: " + ToStr(Get(item, "location")))
    else if k == 2 then Line(Truthy(Get(item, "formatted_time")), "Time: " + ToStr(Get(item, "formatted_time")))
    else if k == 3 then
      Line(Truthy(Get(item, "start_time")) && Truthy(Get(item, "end_time")),
           "Time: " + ToStr(Get(item, "start_time")) + " - " + ToStr(Get(item, "end_time")))
    else if k == 4 then Line(Truthy(Get(item, "category")), "Category: " + ToStr(Get(item, "category")))
    else if k == 5 then Line(Truthy(Get(item, "department_name")), "Department: " + ToStr(Get(item, "department_name")))
    else if k == 6 then Line(Truthy(Get(item, "office_location")), "Office: " + ToStr(Get(item, "office_location")))
    else if k == 7 then Line(Truthy(Get(item, "phone")), "Phone: " + ToStr(Get(item, "phone")))
    else Line(Truthy(Get(item, "email")), "Email: " + ToStr(Get(item, "email")))
  }

  /** The first `n` possible detail lines that are present. */
  function DetailLines(item: Value, n: nat): (r: seq<string>)
    requires n <= 9
    ensures |r| <= n
  {
    if n == 0 then [] else DetailLines(item, n - 1) + DetailLine(item, n - 1)
  }

  /** Later lines only extend the earlier ones. */
  lemma {:induction false} DetailLinesPrefix(item: Value, m: nat, n: nat)
    requires m <= n <= 9
    ensures DetailLines(item, m) <= DetailLines(item, n)
    decreases n - m
  {
    if m < n {
      DetailLinesPrefix(item, m, n - 1);
    }
  }

  /** A record with a formatted time and both a start and an end time
      gets two "Time:" lines, the formatted one first. */
  lemma DetailsBothTimes(item: Value)
    requires IsObject(item)
    requires Truthy(Get(item, "formatted_time")) && Truthy(Get(item, "start_time")) && Truthy(Get(item, "end_time"))
    ensures exists i, j :: (0 <= i < j < |Details(item)|
      && Details(item)[i] == "Time: " + ToStr(Get(item, "formatted_time"))
      && Details(item)[j] == "Time: " + ToStr(Get(item, "start_time")) + " - " + ToStr(Get(item, "end_time")))
  {
    var head := DetailLines(item, 2);
    var t1 := "Time: " + ToStr(Get(item, "formatted_time"));
    var t2 := "Time: " + ToStr(Get(item, "start_time")) + " - " + ToStr(Get(item, "end_time"));
    DetailLinesPrefix(item, 4, 9);
    assert DetailLines(item, 4) == head + [t1] + [t2];
    assert Details(item)[|head|] == t1;
    assert Details(item)[|head| + 1] == t2;
  }

  /** The date line takes `date`, else `event_date`, else
      `achievement_date`, and comes first. */
  lemma DetailsDateFirst(item: Value)
    requires IsObject(item) && !Truthy(Get(item, "date")) && Truthy(Get(item, "event_date"))
    ensures Details(item) != [] && Details(item)[0] == "Date: " + ToStr(Get(item, "event_date"))
  {
    DetailLinesPrefix(item, 1, 9);
    assert DetailLines(item, 1) == ["Date: " + ToStr(DateValue(item))];
  }

  /** One `if (value) details.push(line)` of buildDetailsFromItem. */
  method PushLine(details: seq<string>, present: bool, line: string) returns (r: seq<string>)
    ensures present ==> r == details + [line]
    ensures !present ==> r == details
  {
    r := details;
    if present {
      r := r + [line];
    }
  }

  /** buildDetailsFromItem as written: a push for each present field. */
  method BuildDetailsFromItem(item: Value) returns (details: seq<string>)
    ensures details == Details(item)
  {
    if !IsObject(item) {
      return [];
    }
    details := PushWhenLines(item);
    details := PushWhereLines(item, details);
  }

  /** The first four pushes of buildDetailsFromItem: the date and the
      location, then the two kinds of time line. */
  method PushWhenLines(item: Value) returns (details: seq<string>)
    ensures details == DetailLines(item, 4)
  {
    var dateValue := Or(Or(Get(item, "date"), Get(item, "event_date")), Get(item, "achievement_date"));
    details := PushLine([], Truthy(dateValue), "Date: " + ToStr(dateValue));
    assert details == DetailLines(item, 1);
    var location := Get(item, "location");
    details := PushLine(details, Truthy(location), "Location: " + ToStr(location));
    assert details == DetailLines(item, 2);
    var formattedTime := Get(item, "formatted_time");
    details := PushLine(details, Truthy(formattedTime), "Time: " + ToStr(formattedTime));
    assert details == DetailLines(item, 3);
    var startTime, endTime := Get(item, "start_time"), Get(item, "end_time");
    details := PushLine(details, Truthy(startTime) && Truthy(endTime),
                        "Time: " + ToStr(startTime) + " - " + ToStr(endTime));
  }

  /** The last five pushes of buildDetailsFromItem: category, department,
      office, phone and email. */
  method PushWhereLines(item: Value, start: seq<string>) returns (details: seq<string>)
    requires start == DetailLines(item, 4)
    ensures details == DetailLines(item, 9)
  {
    var category := Get(item, "category");
    details := PushLine(start, Truthy(category), "Category: " + ToStr(category));
    assert details == DetailLines(item, 5);
    var department := Get(item, "department_name");
    details := PushLine(details, Truthy(department), "Department: " + ToStr(department));
    assert details == DetailLines(item, 6);
    var office := Get(item, "office_location");
    details := PushLine(details, Truthy(office), "Office: " + ToStr(office));
    assert details == DetailLines(item, 7);
    var phone := Get(item, "phone");
    details := PushLine(details, Truthy(phone), "Phone: " + ToStr(phone));
    assert details == DetailLines(item, 8);
    var email := Get(item, "email");
    details := PushLine(details, Truthy(email), "Email: " + ToStr(email));
  }

  // ---------------------------------------------------------------------
  // The generic strategy

  /** The list held by the first key whose value is a list. */
  function FirstList(data: Value, keys: seq<string>): (r: seq<Value>)
    ensures (forall k :: 0 <= k < |keys| ==> !Get(data, keys[k]).Arr?) ==> r == []
    ensures forall k :: 0 <= k < |keys| ==>
      (Get(data, keys[k]).Arr? && (forall j :: 0 <= j < k ==> !Get(data, keys[j]).Arr?))
      ==> r == Get(data, keys[k]).items
  {
    if keys == [] then []
    else
      assert forall k :: 1 <= k < |keys| ==> keys[1..][k - 1] == keys[k];
      var v := Get(data, keys[0]);
      if v.Arr? then v.items else FirstList(data, keys[1..])
  }

  /** resolveItems: a list is returned as it is; an object gives the list
      under the first key (in `keys` order) that holds one; anything else
      gives nothing. */
  function ResolveItems(data: Value, keys: seq<string>): (r: seq<Value>)
    ensures data.Arr? ==> r == data.items
    ensures data.Obj? ==> r == FirstList(data, keys)
    ensures !data.Arr? && !data.Obj? ==> r == []
  {
    if data.Arr? then data.items
    else if data.Obj? then FirstList(data, keys)
    else []
  }

  /** The elements of `s` not in `seen`, each once, in first-occurrence
      order. */
  function DedupeFrom(s: seq<string>, seen: set<string>): (r: seq<string>)
    ensures forall x :: x in r <==> x in s && x !in seen
    ensures forall i, j :: 0 <= i < j < |r| ==> r[i] != r[j]
  {
    if s == [] then []
    else if s[0] in seen then DedupeFrom(s[1..], seen)
    else [s[0]] + DedupeFrom(s[1..], seen + {s[0]})
  }

  /** `Array.from(new Set(s))`. */
  function Dedupe(s: seq<string>): (r: seq<string>)
    ensures forall x :: x in r <==> x in s
    ensures forall i, j :: 0 <= i < j < |r| ==> r[i] != r[j]
  {
    DedupeFrom(s, {})
  }

  /** Deduplicating a concatenation deduplicates the first part, then the
      second part against everything the first part held. */
  lemma {:induction false} DedupeFromAppend(a: seq<string>, b: seq<string>, seen: set<string>)
    ensures DedupeFrom(a + b, seen) == DedupeFrom(a, seen) + DedupeFrom(b, seen + set x | x in a)
    decreases |a|
  {
    if a == [] {
      assert a + b == b;
      assert (set x | x in a) == {};
      assert seen + {} == seen;
    } else {
      assert (a + b)[0] == a[0] && (a + b)[1..] == a[1..] + b;
      var seen' := if a[0] in seen then seen else seen + {a[0]};
      DedupeFromAppend(a[1..], b, seen');
      assert seen' + (set x | x in a[1..]) == seen + (set x | x in a);
    }
  }

  /** A list without repetitions, disjoint from `seen`, is kept as it is. */
  lemma {:induction false} DedupeFromDistinct(a: seq<string>, seen: set<string>)
    requires forall i, j :: 0 <= i < j < |a| ==> a[i] != a[j]
    requires forall x :: x in a ==> x !in seen
    ensures DedupeFrom(a, seen) == a
    decreases |a|
  {
    if a != [] {
      var rest := a[1..];
      assert a[0] in a;
      forall i, j | 0 <= i < j < |rest| ensures rest[i] != rest[j] {
        assert rest[i] == a[i + 1] && rest[j] == a[j + 1];
      }
      forall x | x in rest ensures x !in seen + {a[0]} {
        var k :| 0 <= k < |rest| && rest[k] == x;
        assert a[k + 1] == x;
      }
      DedupeFromDistinct(rest, seen + {a[0]});
    }
  }

  /** The fields of a source that its entries are built from. */
  datatype Base = Base(id: string, title: string, url: string, keywords: seq<string>)

  /** buildDynamicEntry: one generic entry for the record at `index`. */
  function DynamicEntry(base: Base, item: Value, index: nat): (r: Entry)
    ensures r.id == base.id + "-" + NatToString(index)
    ensures r.title == base.title + ": " + ToStr(Title(item, Str(base.title)))
    ensures r.url == base.url && r.extra == base.title && r.sourceType == Dynamic
    ensures |r.summary| <= SummaryCap || r.summary == base.title
    ensures base.title != "" ==> r.summary != ""
    ensures r.details == Details(item) && r.actions == DynamicActions
    ensures forall w :: w in r.keywords <==> w in base.keywords || w in Tokenize(ToStr(Title(item, Str(base.title))))
    ensures forall i, j :: 0 <= i < j < |r.keywords| ==> r.keywords[i] != r.keywords[j]
  {
    var title := Title(item, Str(base.title));
    var summary := Summary(item, base.title);
    var cut := summary[..Min(SummaryCap, |summary|)];
    Entry(
      id := base.id + "-" + NatToString(index),
      title := base.title + ": " + ToStr(title),
      url := base.url,
      summary := if cut != "" then cut else base.title,
      keywords := Dedupe(base.keywords + Tokenize(ToStr(title))),
      details := Details(item),
      actions := DynamicActions,
      extra := base.title,
      sourceType := Dynamic)
  }

  /** Base keywords without repetitions come first, unchanged, and the
      title's new tokens follow. */
  lemma DynamicKeywordsOrder(base: Base, item: Value, index: nat)
    requires forall i, j :: 0 <= i < j < |base.keywords| ==> base.keywords[i] != base.keywords[j]
    ensures DynamicEntry(base, item, index).keywords
      == base.keywords + DedupeFrom(Tokenize(ToStr(Title(item, Str(base.title)))), set x | x in base.keywords)
  {
    DedupeAfterDistinct(base.keywords, Tokenize(ToStr(Title(item, Str(base.title)))));
  }

  /** Deduplicating a list without repetitions followed by more keeps the
      list and adds the new elements of the rest. */
  lemma DedupeAfterDistinct(a: seq<string>, b: seq<string>)
    requires forall i, j :: 0 <= i < j < |a| ==> a[i] != a[j]
    ensures Dedupe(a + b) == a + DedupeFrom(b, set x | x in a)
  {
    DedupeFromAppend(a, b, {});
    DedupeFromDistinct(a, {});
    assert {} + (set x | x in a) == set x | x in a;
  }

  /** `source.url`, with `?section=` and the section when it is set. */
  function BaseUrl(source: Source): (r: string)
    ensures source.section.Some? && source.section.value != "" ==> r == source.url + "?section=" + source.section.value
    ensures !(source.section.Some? && source.section.value != "") ==> r == source.url
  {
    if source.section.Some? && source.section.value != "" then source.url + "?section=" + source.section.value
    else source.url
  }

  /** The generic path of extractEntries: the first `limit` resolved
      records, each as a generic entry for its position. */
  function GenericEntries(source: Source, data: Value, limit: nat): (r: seq<Entry>)
    ensures |r| == Min(limit, |ResolveItems(data, source.keys)|)
    ensures forall i :: 0 <= i < |r| ==>
      r[i] == DynamicEntry(Base(source.id, source.title, BaseUrl(source), source.keywords), ResolveItems(data, source.keys)[i], i)
  {
    var items := ResolveItems(data, source.keys);
    var base := Base(source.id, source.title, BaseUrl(source), source.keywords);
    seq(Min(limit, |items|), i requires 0 <= i < Min(limit, |items|) => DynamicEntry(base, items[i], i))
  }

  // ---------------------------------------------------------------------
  // The special strategies

  /** The three kinds of entries the special builders push per category. */
  datatype Kind = Requirement | Step | Download

  /** The lower-case formatting of `\w` in JavaScript regular
      expressions: ASCII letters, digits and the underscore. */
  predicate IsRegexWordChar(c: char)
  {
    ('a' <= c <= 'z') || ('A' <= c <= 'Z') || ('0' <= c <= '9') || c == '_'
  }

  /** `.replace(/-/g, ' ')`. */
  function Dehyphen(s: string): (r: string)
    ensures |r| == |s|
    ensures forall k :: 0 <= k < |s| ==> r[k] == (if s[k] == '-' then ' ' else s[k])
  {
    seq(|s|, k requires 0 <= k < |s| => if s[k] == '-' then ' ' else s[k])
  }

  /** `.replace(/\b\w/g, c => c.toUpperCase())`: upper-cases each word
      character that follows a non-word character or the start;
      `afterWord` says whether the text before `s` ended in a word
      character. */
  function CapitalizeWords(s: string, afterWord: bool): (r: string)
    ensures |r| == |s|
  {
    if s == [] then []
    else
      var c := if IsRegexWordChar(s[0]) && !afterWord then UpperChar(s[0]) else s[0];
      [c] + CapitalizeWords(s[1..], IsRegexWordChar(s[0]))
  }

  /** A character is upper-cased exactly when it is a word character at
      a word boundary. */
  lemma {:induction false} CapitalizeWordsAt(s: string, afterWord: bool, k: nat)
    requires k < |s|
    ensures CapitalizeWords(s, afterWord)[k]
      == if IsRegexWordChar(s[k]) && !(if k == 0 then afterWord else IsRegexWordChar(s[k - 1]))
         then UpperChar(s[k]) else s[k]
  {
    if k > 0 {
      CapitalizeWordsAt(s[1..], IsRegexWordChar(s[0]), k - 1);
      assert s[1..][k - 1] == s[k];
      if k > 1 {
        assert s[1..][k - 2] == s[k - 1];
      }
    }
  }

  /** The category label: hyphens become spaces and every word starts
      with a capital. */
  function Label(category: string): (r: string)
    ensures |r| == |category|
  {
    CapitalizeWords(Dehyphen(category), false)
  }

  /** The label differs from the category only in hyphens, which become
      spaces, and in word-initial letters, which become capitals. */
  lemma LabelShape(category: string, k: nat)
    requires k < |category|
    ensures category[k] == '-' ==> Label(category)[k] == ' '
    ensures category[k] != '-' ==> LowerChar(Label(category)[k]) == LowerChar(category[k])
    ensures 'a' <= category[k] <= 'z' && (k == 0 || !IsRegexWordChar(Dehyphen(category)[k - 1]))
      ==> Label(category)[k] == UpperChar(category[k])
    ensures k > 0 && IsRegexWordChar(Dehyphen(category)[k - 1]) ==> Label(category)[k] == Dehyphen(category)[k]
  {
    CapitalizeWordsAt(Dehyphen(category), false, k);
  }

  /** The page anchor of a download category. */
  function Anchor(category: string): (r: string)
    ensures r in {"#documents", "#forms", "#hr-policies", "#hr-forms"}
    ensures category == "hr-policies" ==> r == "#hr-policies"
    ensures category == "hr-forms" ==> r == "#hr-forms"
    ensures category != "hr-policies" && category != "hr-forms" ==>
      (r == "#forms" <==> StartsWith(category, "forms-"))
  {
    var anchor := "#documents";
    var anchor := if StartsWith(category, "forms-") then "#forms" else anchor;
    var anchor := if category == "hr-policies" then "#hr-policies" else anchor;
    if category == "hr-forms" then "#hr-forms" else anchor
  }

  /** The url of the entries of one kind and category. */
  function KindUrl(kind: Kind, category: string): string
  {
    match kind
    case Requirement => "/admissions"
    case Step => "/admissions"
    case Download => "/downloads" + Anchor(category)
  }

  /** The id prefix of the entries of one kind and category. */
  function KindPrefix(kind: Kind, category: string): string
  {
    match kind
    case Requirement => "admissions-req-" + category + "-"
    case Step => "admissions-step-" + category + "-"
    case Download => "downloads-" + category + "-"
  }

  const StudentKeywords: seq<string> := ["new student", "continuing student", "scholar", "non scholar"]

  /** One requirement entry; `item` is not null or undefined. */
  function RequirementEntry(category: string, item: Value, index: nat): Entry
  {
    var text := Get(item, "text");
    Entry(
      id := KindPrefix(Requirement, category) + NatToString(index),
      title := "Admissions Requirement: " + ToStr(Or(text, Str(category))),
      url := KindUrl(Requirement, category),
      summary := ToStr(Or(text, Str("Requirements for " + category))),
      keywords := ["admissions", "requirements", Lower(category)] + StudentKeywords,
      details := ["Category: " + Label(category)],
      actions := ["Review the full requirements list for this category",
                  "Follow the enrollment process steps below the requirements"],
      extra := "Admissions requirements",
      sourceType := Dynamic)
  }

  /** An enrollment step's title: its own, or "Step" and its number, or
      its position counted from 1. */
  function StepTitle(item: Value, index: nat): Value
  {
    Or(Get(item, "title"), Str("Step " + ToStr(Or(Get(item, "step_number"), Num(index + 1)))))
  }

  /** One enrollment-step entry; `item` is not null or undefined. */
  function StepEntry(category: string, item: Value, index: nat): Entry
  {
    var stepTitle := StepTitle(item, index);
    Entry(
      id := KindPrefix(Step, category) + NatToString(index),
      title := "Enrollment Step: " + ToStr(stepTitle),
      url := KindUrl(Step, category),
      summary := ToStr(Or(Get(item, "description"), stepTitle)),
      keywords := ["admissions", "enrollment", "steps", Lower(category)] + StudentKeywords,
      details := ["Category: " + Label(category)],
      actions := ["Complete the steps in order", "Contact admissions if a step is unclear"],
      extra := "Enrollment process",
      sourceType := Dynamic)
  }

  /** One download entry; `item` is not null or undefined. */
  function DownloadEntry(category: string, item: Value, index: nat): Entry
  {
    var fileType := Get(item, "file_type");
    Entry(
      id := KindPrefix(Download, category) + NatToString(index),
      title := "Download: " + ToStr(Or(Get(item, "title"), Str(category))),
      url := KindUrl(Download, category),
      summary := ToStr(Or(Get(item, "description"), Str("Downloadable file in " + category))),
      keywords := ["downloads", category],
      details := if Truthy(fileType) then ["File type: " + ToStr(fileType)] else [],
      actions := ["Open the download to view or save the file",
                  "Browse other categories for related documents"],
      extra := "Downloads",
      sourceType := Dynamic)
  }

  /** The entry one special builder pushes for the record at `index` of
      a category; None when the record is null or undefined, as reading
      its first property throws. */
  function ItemEntry(kind: Kind, category: string, item: Value, index: nat): (r: Option<Entry>)
    ensures r.None? <==> item.Null? || item.Undefined?
  {
    if item.Null? || item.Undefined? then None else Some(KindEntry(kind, category, item, index))
  }

  /** The entry of one kind for a record that is not null or undefined:
      its id names the category and the position, its url is the kind's. */
  function KindEntry(kind: Kind, category: string, item: Value, index: nat): Entry
    requires !item.Null? && !item.Undefined?
  {
    match kind
    case Requirement => RequirementEntry(category, item, index)
    case Step => StepEntry(category, item, index)
    case Download => DownloadEntry(category, item, index)
  }

  /** Every special entry names its category and position in its id, has
      its kind's url, is dynamic and offers two actions. */
  lemma KindEntryShape(kind: Kind, category: string, item: Value, index: nat)
    requires !item.Null? && !item.Undefined?
    ensures KindEntry(kind, category, item, index).id == KindPrefix(kind, category) + NatToString(index)
    ensures KindEntry(kind, category, item, index).url == KindUrl(kind, category)
    ensures KindEntry(kind, category, item, index).sourceType == Dynamic
    ensures |KindEntry(kind, category, item, index).actions| == 2
  {
    match kind
    case Requirement =>
      assert KindEntry(kind, category, item, index) == RequirementEntry(category, item, index);
    case Step =>
      assert KindEntry(kind, category, item, index) == StepEntry(category, item, index);
    case Download =>
      assert KindEntry(kind, category, item, index) == DownloadEntry(category, item, index);
  }

  /** A step without a title is named after its number, or after its
      position counted from 1 when it has no number either. */
  lemma StepTitleFallback(item: Value, index: nat)
    requires !Truthy(Get(item, "title"))
    ensures Truthy(Get(item, "step_number")) ==>
      StepTitle(item, index) == Str("Step " + ToStr(Get(item, "step_number")))
    ensures !Truthy(Get(item, "step_number")) ==>
      StepTitle(item, index) == Str("Step " + NatToString(index + 1))
  {
  }

  /** Neither null nor undefined: reading a property does not throw. */
  predicate Present(v: Value)
  {
    !v.Null? && !v.Undefined?
  }

  /** The entries for the first `count` records of one category, in
      order, or None when one of them throws. */
  function CategoryEntries(kind: Kind, category: string, items: seq<Value>, count: nat): (r: Option<seq<Entry>>)
    requires count <= |items|
    ensures r.None? <==> exists i :: 0 <= i < count && !Present(items[i])
    ensures r.Some? ==> |r.value| == count
    ensures r.Some? ==> forall i :: 0 <= i < count ==> ItemEntry(kind, category, items[i], i) == Some(r.value[i])
  {
    if forall i :: 0 <= i < count ==> Present(items[i]) then
      Some(seq(count, i requires 0 <= i < count => KindEntry(kind, category, items[i], i)))
    else None
  }

  /** The entries of the first `n` categories: each list-valued category
      contributes its first `limit` records; other values are skipped. */
  function KindEntries(kind: Kind, cats: seq<(string, Value)>, n: nat, limit: nat): (r: Option<seq<Entry>>)
    requires n <= |cats|
  {
    if n == 0 then Some([])
    else
      var prev := KindEntries(kind, cats, n - 1, limit);
      var (category, items) := cats[n - 1];
      if !items.Arr? then prev
      else
        var more := CategoryEntries(kind, category, items.items, Min(limit, |items.items|));
        if prev.None? || more.None? then None else Some(prev.value + more.value)
  }

  /** Every entry of a kind has that kind's url and is dynamic, and no
      category gives more than `limit` entries. */
  lemma {:induction false} KindEntriesShape(kind: Kind, cats: seq<(string, Value)>, n: nat, limit: nat)
    requires n <= |cats|
    requires KindEntries(kind, cats, n, limit).Some?
    ensures |KindEntries(kind, cats, n, limit).value| <= n * limit
    ensures forall e :: e in KindEntries(kind, cats, n, limit).value ==>
      e.sourceType == Dynamic && exists c :: e.url == KindUrl(kind, c)
  {
    if n > 0 {
      KindEntriesShape(kind, cats, n - 1, limit);
      var (category, items) := cats[n - 1];
      if items.Arr? {
        var more := CategoryEntries(kind, category, items.items, Min(limit, |items.items|)).value;
        forall e | e in more ensures e.sourceType == Dynamic && e.url == KindUrl(kind, category) {
          var i :| 0 <= i < |more| && more[i] == e;
          assert ItemEntry(kind, category, items.items[i], i) == Some(e);
          KindEntryShape(kind, category, items.items[i], i);
        }
      }
    }
  }

  /** A throw in one category spoils every longer prefix as well. */
  lemma {:induction false} KindEntriesStaysFailed(kind: Kind, cats: seq<(string, Value)>, m: nat, n: nat, limit: nat)
    requires m <= n <= |cats|
    requires KindEntries(kind, cats, m, limit).None?
    ensures KindEntries(kind, cats, n, limit).None?
    decreases n - m
  {
    if m < n {
      KindEntriesStaysFailed(kind, cats, m + 1, n, limit);
    }
  }

  /** The inner forEach of the special builders: push the entries of
      the first `count` records of one category onto `entries`. */
  method PushCategoryEntries(kind: Kind, category: string, list: seq<Value>, count: nat, entries: seq<Entry>)
    returns (r: Option<seq<Entry>>)
    requires count <= |list|
    ensures CategoryEntries(kind, category, list, count).None? ==> r.None?
    ensures CategoryEntries(kind, category, list, count).Some? ==>
      r == Some(entries + CategoryEntries(kind, category, list, count).value)
  {
    ghost var outs := seq(count, i requires 0 <= i < count => ItemEntry(kind, category, list[i], i));
    var pushed := entries;
    var j := 0;
    while j < count
      invariant 0 <= j <= count
      invariant |pushed| == |entries| + j && pushed[..|entries|] == entries
      invariant forall i :: 0 <= i < j ==> outs[i] == Some(pushed[|entries| + i])
    {
      var e := ItemEntry(kind, category, list[j], j);
      if e.None? {
        return None;
      }
      PushedStep(outs, entries, pushed, j, e.value);
      pushed := pushed + [e.value];
      j := j + 1;
    }
    forall i | 0 <= i < count
      ensures Present(list[i])
    {
      assert outs[i] == ItemEntry(kind, category, list[i], i);
    }
    ghost var want := CategoryEntries(kind, category, list, count);
    PushedAll(outs, entries, pushed, want.value);
    r := Some(pushed);
  }

  /** Once every outcome is pushed, the pushed suffix is the list of
      outcomes. */
  lemma PushedAll<T>(outs: seq<Option<T>>, entries: seq<T>, pushed: seq<T>, want: seq<T>)
    requires |pushed| == |entries| + |outs| && pushed[..|entries|] == entries
    requires forall i :: 0 <= i < |outs| ==> outs[i] == Some(pushed[|entries| + i])
    requires |want| == |outs| && forall i :: 0 <= i < |outs| ==> outs[i] == Some(want[i])
    ensures pushed == entries + want
  {
    forall i | 0 <= i < |pushed|
      ensures pushed[i] == (entries + want)[i]
    {
      if i < |entries| {
        assert pushed[i] == pushed[..|entries|][i];
      } else {
        assert outs[i - |entries|] == Some(want[i - |entries|]);
      }
    }
  }

  /** One push keeps the pushed suffix equal to the outcomes so far. */
  lemma PushedStep<T>(outs: seq<Option<T>>, entries: seq<T>, pushed: seq<T>, j: nat, e: T)
    requires j < |outs| && |pushed| == |entries| + j && pushed[..|entries|] == entries
    requires forall i :: 0 <= i < j ==> outs[i] == Some(pushed[|entries| + i])
    requires outs[j] == Some(e)
    ensures (pushed + [e])[..|entries|] == entries
    ensures forall i :: 0 <= i < j + 1 ==> outs[i] == Some((pushed + [e])[|entries| + i])
  {
    var next := pushed + [e];
    assert next[..|entries|] == pushed[..|entries|];
    forall i | 0 <= i < j + 1
      ensures outs[i] == Some(next[|entries| + i])
    {
      if i < j {
        assert next[|entries| + i] == pushed[|entries| + i];
      }
    }
  }

  /** The nested forEach of the special builders: for each list-valued
      category, push the entries of its first `limit` records. */
  method PushKindEntries(kind: Kind, cats: seq<(string, Value)>, limit: nat) returns (r: Option<seq<Entry>>)
    ensures r == KindEntries(kind, cats, |cats|, limit)
  {
    var entries: seq<Entry> := [];
    var i := 0;
    while i < |cats|
      invariant 0 <= i <= |cats|
      invariant KindEntries(kind, cats, i, limit) == Some(entries)
    {
      var (category, items) := cats[i];
      if items.Arr? {
        var pushed := PushCategoryEntries(kind, category, items.items, Min(limit, |items.items|), entries);
        if pushed.None? {
          assert KindEntries(kind, cats, i + 1, limit).None?;
          KindEntriesStaysFailed(kind, cats, i + 1, |cats|, limit);
          return None;
        }
        entries := pushed.value;
      }
      i := i + 1;
    }
    r := Some(entries);
  }

  /** `value || {}` is never null or undefined. */
  function OrEmpty(v: Value): (r: Value)
    ensures !r.Null? && !r.Undefined?
    ensures Truthy(v) ==> r == v
  {
    Or(v, Obj([]))
  }

  /** buildAdmissionsEntries: the requirement entries of every category,
      then the step entries of every category. */
  function AdmissionsEntries(data: Value, limit: nat): (r: Option<seq<Entry>>)
    ensures r.Some? ==> forall e :: e in r.value ==> e.url == "/admissions" && e.sourceType == Dynamic
  {
    var reqs := Entries(OrEmpty(OptProp(data, "requirements_by_category")));
    var steps := Entries(OrEmpty(OptProp(data, "process_steps_by_category")));
    var a := KindEntries(Requirement, reqs, |reqs|, limit);
    var b := KindEntries(Step, steps, |steps|, limit);
    if a.None? || b.None? then None
    else
      KindEntriesShape(Requirement, reqs, |reqs|, limit);
      KindEntriesShape(Step, steps, |steps|, limit);
      Some(a.value + b.value)
  }

  /** buildAdmissionsEntries as written. */
  method BuildAdmissionsEntries(data: Value, limit: nat) returns (r: Option<seq<Entry>>)
    ensures r == AdmissionsEntries(data, limit)
  {
    var requirementsByCategory := OrEmpty(OptProp(data, "requirements_by_category"));
    var stepsByCategory := OrEmpty(OptProp(data, "process_steps_by_category"));
    var reqs := PushKindEntries(Requirement, Entries(requirementsByCategory), limit);
    if reqs.None? {
      return None;
    }
    var steps := PushKindEntries(Step, Entries(stepsByCategory), limit);
    if steps.None? {
      return None;
    }
    r := Some(reqs.value + steps.value);
  }

  /** buildDownloadsEntries: the `downloads` field, or the data itself;
      nothing when that is not an object, else the download entries of
      every list-valued category. */
  function DownloadsEntries(data: Value, limit: nat): (r: Option<seq<Entry>>)
    ensures !IsObject(Or(OptProp(data, "downloads"), data)) ==> r == Some([])
    ensures r.Some? ==> forall e :: e in r.value ==> StartsWith(e.url, "/downloads#") && e.sourceType == Dynamic
  {
    var downloads := Or(OptProp(data, "downloads"), data);
    if !Truthy(downloads) || !IsObject(downloads) then Some([])
    else
      var cats := Entries(downloads);
      var r := KindEntries(Download, cats, |cats|, limit);
      if r.None? then r
      else
        KindEntriesShape(Download, cats, |cats|, limit);
        AnchorsStartWithHash();
        r
  }

  lemma AnchorsStartWithHash()
    ensures forall c :: StartsWith(KindUrl(Download, c), "/downloads#")
  {
    forall c ensures StartsWith(KindUrl(Download, c), "/downloads#") {
      var a := Anchor(c);
      assert ("/downloads" + a)[..11] == "/downloads" + a[..1];
    }
  }

  /** buildDownloadsEntries as written. */
  method BuildDownloadsEntries(data: Value, limit: nat) returns (r: Option<seq<Entry>>)
    ensures r == DownloadsEntries(data, limit)
  {
    var downloads := Or(OptProp(data, "downloads"), data);
    if !Truthy(downloads) || !IsObject(downloads) {
      return Some([]);
    }
    r := PushKindEntries(Download, Entries(downloads), limit);
  }

  /** The presence flags of the institutional entry, in order. */
  function InstitutionalDetails(info: Value): (r: seq<string>)
    ensures |r| <= 4
  {
    Line(Truthy(OptProp(info, "mission")), "Mission statement available")
    + Line(Truthy(OptProp(info, "vision")), "Vision statement available")
    + Line(Truthy(OptProp(info, "goals")), "Goals listed")
    + Line(Truthy(OptProp(info, "core_values")), "Core values listed")
  }

  /** buildInstitutionalEntry: the one entry for the institutional
      information, found under `institutional_info` or as the data
      itself. */
  function InstitutionalEntry(data: Value): (r: Entry)
    ensures r.id == "institutional-info" && r.url == "/about" && r.sourceType == Dynamic
    ensures r.details == InstitutionalDetails(Or(OptProp(data, "institutional_info"), data))
    ensures r.summary == Summary(Or(OptProp(data, "institutional_info"), data), "Institutional information")
  {
    var info := Or(OptProp(data, "institutional_info"), data);
    var summary := Summary(info, "Institutional information");
    Entry(
      id := "institutional-info",
      title := "Institutional Information",
      url := "/about",
      summary := if summary != "" then summary else "Institutional mission, vision, goals, and core values.",
      keywords := ["mission", "vision", "goals", "core values", "about"],
      details := InstitutionalDetails(info),
      actions := ["Open About Us for the full mission and vision", "Review goals and core values sections"],
      extra := "Institutional information",
      sourceType := Dynamic)
  }

  /** A record with all four statements gets all four flags in order. */
  lemma InstitutionalAllFlags(info: Value)
    requires Truthy(OptProp(info, "mission")) && Truthy(OptProp(info, "vision"))
    requires Truthy(OptProp(info, "goals")) && Truthy(OptProp(info, "core_values"))
    ensures InstitutionalDetails(info)
      == ["Mission statement available", "Vision statement available", "Goals listed", "Core values listed"]
  {
  }

  /** extractEntries: dispatch on the source's extractor tag. */
  function ExtractEntries(source: Source, data: Value, limit: nat): (r: Option<seq<Entry>>)
    ensures source.extractor == "institutional" ==> r == Some([InstitutionalEntry(data)])
    ensures source.extractor !in {"admissions", "institutional", "downloads"} ==>
      r == Some(GenericEntries(source, data, limit))
    ensures source.extractor == "admissions" ==> r == AdmissionsEntries(data, limit)
    ensures source.extractor == "downloads" ==> r == DownloadsEntries(data, limit)
  {
    if source.extractor == "admissions" then AdmissionsEntries(data, limit)
    else if source.extractor == "institutional" then Some([InstitutionalEntry(data)])
    else if source.extractor == "downloads" then DownloadsEntries(data, limit)
    else Some(GenericEntries(source, data, limit))
  }

  /** The generic path gives at most `limit` entries, in record order,
      each at the source's url (with its section when set). */
  lemma GenericEntriesBound(source: Source, data: Value, limit: nat)
    requires source.extractor !in {"admissions", "institutional", "downloads"}
    ensures ExtractEntries(source, data, limit).Some?
    ensures |ExtractEntries(source, data, limit).value| <= limit
    ensures forall i :: 0 <= i < |ExtractEntries(source, data, limit).value| ==>
      ExtractEntries(source, data, limit).value[i].url == BaseUrl(source)
      && ExtractEntries(source, data, limit).value[i].id == source.id + "-" + NatToString(i)
  {
  }
}
