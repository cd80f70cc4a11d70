/** The local answer text (src/utils/contentFormatter.js): an intro chosen
    by priority, one block of lines per match, and a fixed closing
    sentence. */
module Formatter {
  import opened Strs
  import opened Records
  import opened Text
  import opened Context

  const LatestWords: seq<string> := ["latest", "recent", "new", "updates"]

  /** The four intros, in the order they are tested. */
  datatype IntroKind = FindHere | LatestUpdates | RelevantUpdates | RelevantPage

  function IntroText(k: IntroKind): string
  {
    match k
    case FindHere => "You can find that here:"
    case LatestUpdates => "Here are the latest updates that match your request:"
    case RelevantUpdates => "Here are the most relevant updates I found:"
    case RelevantPage => "Here\U{2019}s the most relevant page for your request:"
  }

  const DetailsHeader: string := "  Details:"
  const ActionsHeader: string := "  What you can do:"
  const ItemMark: string := "  - "
  const Closing: string := "If you want, tell me exactly what detail you\U{2019}re looking for and I\U{2019}ll narrow it down."
  const Apology: string := "Sorry, I ran into a problem while fetching a response. Please try again in a moment."

  /** Some latest-word is a substring of the normalised message. */
  predicate WantsLatest(lower: string)
  {
    exists k :: 0 <= k < |LatestWords| && Contains(lower, LatestWords[k])
  }

  predicate AsksWhere(lower: string)
  {
    Contains(lower, "where") || Contains(lower, "find")
  }

  predicate HasDynamic(matches: seq<Scored<Indexed>>)
  {
    exists i :: 0 <= i < |matches| && matches[i].item.entry.sourceType == Dynamic
  }

  /** The intro, by priority: a where/find question, then dynamic matches
      for a latest request, then dynamic matches, then the default. */
  function IntroFor(lower: string, matches: seq<Scored<Indexed>>): (r: IntroKind)
    ensures r == FindHere <==> AsksWhere(lower)
    ensures r == LatestUpdates <==> (!AsksWhere(lower) && HasDynamic(matches) && WantsLatest(lower))
    ensures r == RelevantUpdates <==> (!AsksWhere(lower) && HasDynamic(matches) && !WantsLatest(lower))
    ensures r == RelevantPage <==> (!AsksWhere(lower) && !HasDynamic(matches))
  {
    if AsksWhere(lower) then FindHere
    else if HasDynamic(matches) && WantsLatest(lower) then LatestUpdates
    else if HasDynamic(matches) then RelevantUpdates
    else RelevantPage
  }

  /** The latest test looks at substrings: any message containing "news"
      wants the latest updates. */
  lemma NewsWantsLatest(lower: string)
    requires Contains(lower, "news")
    ensures WantsLatest(lower)
  {
    assert Contains("news", "new") by {
      assert OccursAt("news", "new", 0);
    }
    ContainsTrans(lower, "news", "new");
    assert LatestWords[2] == "new";
  }

  /** `filter(Boolean)`: the non-empty items, in order. */
  function NonEmptyItems(items: seq<string>): (r: seq<string>)
    ensures forall x :: x in r <==> x in items && x != ""
    ensures |r| <= |items|
  {
    if items == [] then []
    else if items[0] != "" then [items[0]] + NonEmptyItems(items[1..])
    else NonEmptyItems(items[1..])
  }

  /** One "  - x" line per item. */
  function Marked(items: seq<string>): (r: seq<string>)
    ensures |r| == |items|
  {
    seq(|items|, k requires 0 <= k < |items| => ItemMark + items[k])
  }

  /** A header followed by one line per non-empty item, or nothing when
      there is no non-empty item. */
  function ItemLines(header: string, items: seq<string>): seq<string>
  {
    var kept := NonEmptyItems(items);
    if kept == [] then [] else [header] + Marked(kept)
  }

  /** The bullet of a match. */
  function Bullet(e: Entry): string
  {
    "- [" + e.title + "](" + e.url + "): " + e.summary
  }

  /** The lines of one match. */
  function Block(e: Entry): seq<string>
  {
    [Bullet(e)] + ItemLines(DetailsHeader, e.details) + ItemLines(ActionsHeader, e.actions)
  }

  /** `matches.flatMap(block)`. */
  function Lines(matches: seq<Scored<Indexed>>): seq<string>
  {
    if matches == [] then []
    else Lines(matches[..|matches| - 1]) + Block(matches[|matches| - 1].item.entry)
  }

  /** The whole answer. */
  function Render(intro: string, lines: seq<string>): string
  {
    intro + "\n\n" + Join(lines, "\n") + "\n\n" + Closing
  }

  /** A header appears iff some item is non-empty, and then it is
      followed by one marked line per non-empty item, in order. */
  lemma ItemLinesShape(header: string, items: seq<string>)
    ensures ItemLines(header, items) != [] <==> exists i :: 0 <= i < |items| && items[i] != ""
    ensures ItemLines(header, items) != [] ==>
      (ItemLines(header, items)[0] == header && |ItemLines(header, items)| == |NonEmptyItems(items)| + 1
       && forall k :: 0 <= k < |NonEmptyItems(items)| ==> ItemLines(header, items)[k + 1] == ItemMark + NonEmptyItems(items)[k])
  {
    var kept := NonEmptyItems(items);
    if kept != [] {
      assert kept[0] in items;
      var j :| 0 <= j < |items| && items[j] == kept[0];
      assert items[j] != "";
    }
    if exists i :: 0 <= i < |items| && items[i] != "" {
      var i :| 0 <= i < |items| && items[i] != "";
      assert items[i] in kept;
    }
  }

  /** A line that starts with "- " is a bullet; no header or item line is. */
  predicate IsBullet(line: string)
  {
    StartsWith(line, "- ")
  }

  function Bullets(lines: seq<string>): (r: seq<string>)
    ensures |r| <= |lines|
  {
    if lines == [] then []
    else Bullets(lines[..|lines| - 1]) + (if IsBullet(lines[|lines| - 1]) then [lines[|lines| - 1]] else [])
  }

  lemma {:induction false} BulletsAppend(a: seq<string>, b: seq<string>)
    ensures Bullets(a + b) == Bullets(a) + Bullets(b)
  {
    if b != [] {
      BulletsAppend(a, b[..|b| - 1]);
      assert (a + b)[..|a + b| - 1] == a + b[..|b| - 1];
    } else {
      assert a + b == a;
    }
  }

  /** Lines that all start with two spaces hold no bullet. */
  lemma {:induction false} NoBullets(lines: seq<string>)
    requires forall k :: 0 <= k < |lines| ==> StartsWith(lines[k], "  ")
    ensures Bullets(lines) == []
  {
    if lines != [] {
      NoBullets(lines[..|lines| - 1]);
      var last := lines[|lines| - 1];
      assert last[1] == ' ' by {
        assert last[..2] == "  ";
      }
    }
  }

  lemma ItemLinesIndented(header: string, items: seq<string>)
    requires StartsWith(header, "  ")
    ensures Bullets(ItemLines(header, items)) == []
  {
    var r := ItemLines(header, items);
    forall k | 0 <= k < |r|
      ensures StartsWith(r[k], "  ")
    {
      if k > 0 {
        assert r[k] == ItemMark + NonEmptyItems(items)[k - 1];
        assert r[k][..2] == ItemMark[..2];
      }
    }
    NoBullets(r);
  }

  /** The one bullet of a block is its first line. */
  lemma BlockBullets(e: Entry)
    ensures Bullets(Block(e)) == [Bullet(e)]
  {
    var d := ItemLines(DetailsHeader, e.details);
    var a := ItemLines(ActionsHeader, e.actions);
    assert Bullets(d) == [] by {
      ItemLinesIndented(DetailsHeader, e.details);
    }
    assert Bullets(a) == [] by {
      ItemLinesIndented(ActionsHeader, e.actions);
    }
    assert Bullets([Bullet(e)]) == [Bullet(e)] by {
      assert Bullet(e)[..2] == "- ";
    }
    BulletsAppend([Bullet(e)], d);
    BulletsAppend([Bullet(e)] + d, a);
  }

  /** The bullets of the matches, in order. */
  function MatchBullets(matches: seq<Scored<Indexed>>): (r: seq<string>)
    ensures |r| == |matches|
  {
    seq(|matches|, i requires 0 <= i < |matches| => Bullet(matches[i].item.entry))
  }

  /** Exactly one bullet per match, in match order. */
  lemma {:induction false} BulletPerMatch(matches: seq<Scored<Indexed>>)
    ensures Bullets(Lines(matches)) == MatchBullets(matches)
  {
    if matches != [] {
      var init := matches[..|matches| - 1];
      var last := matches[|matches| - 1].item.entry;
      BulletPerMatch(init);
      assert Bullets(Lines(matches)) == Bullets(Lines(init)) + [Bullet(last)] by {
        BulletsAppend(Lines(init), Block(last));
        BlockBullets(last);
      }
      assert MatchBullets(matches) == MatchBullets(init) + [Bullet(last)];
    }
  }

  lemma {:induction false} LinesAppend(a: seq<Scored<Indexed>>, m: Scored<Indexed>)
    ensures Lines(a + [m]) == Lines(a) + Block(m.item.entry)
  {
    assert (a + [m])[..|a + [m]| - 1] == a;
  }

  /** The lines of one match, built by pushing onto a list. */
  method BuildBlock(e: Entry) returns (block: seq<string>)
    ensures block == Block(e)
  {
    block := [Bullet(e)];
    var details := NonEmptyItems(e.details);
    if |details| > 0 {
      block := block + [DetailsHeader];
      block := PushMarked(block, details);
    }
    var actions := NonEmptyItems(e.actions);
    if |actions| > 0 {
      block := block + [ActionsHeader];
      block := PushMarked(block, actions);
    }
  }

  /** `items.forEach((x) => block.push("  - " + x))`. */
  method PushMarked(start: seq<string>, items: seq<string>) returns (block: seq<string>)
    ensures block == start + Marked(items)
  {
    block := start;
    for j := 0 to |items|
      invariant block == start + Marked(items[..j])
    {
      assert Marked(items[..j + 1]) == Marked(items[..j]) + [ItemMark + items[j]];
      block := block + [ItemMark + items[j]];
    }
    assert items[..|items|] == items;
  }

  /** `matches.flatMap(block)`, one block after the other. */
  method BuildLines(matches: seq<Scored<Indexed>>) returns (lines: seq<string>)
    ensures lines == Lines(matches)
  {
    lines := [];
    for i := 0 to |matches|
      invariant lines == Lines(matches[..i])
    {
      var block := BuildBlock(matches[i].item.entry);
      LinesAppend(matches[..i], matches[i]);
      assert matches[..i + 1] == matches[..i] + [matches[i]];
      lines := lines + block;
    }
    assert matches[..|matches|] == matches;
  }

  /** formatLocalResponse. */
  method FormatLocalResponse(message: string, matches: seq<Scored<Indexed>>) returns (r: string)
    ensures r == Render(IntroText(IntroFor(NormalizeText(message), matches)), Lines(matches))
  {
    var lower := NormalizeText(message);
    var wantsLatest := WantsLatest(lower);
    var hasDynamic := HasDynamic(matches);
    var intro := IntroText(RelevantPage);
    if Contains(lower, "where") || Contains(lower, "find") {
      intro := IntroText(FindHere);
    } else if hasDynamic && wantsLatest {
      intro := IntroText(LatestUpdates);
    } else if hasDynamic {
      intro := IntroText(RelevantUpdates);
    }
    var lines := BuildLines(matches);
    r := intro + "\n\n" + Join(lines, "\n") + "\n\n" + Closing;
  }

  /** formatErrorResponse: the message when it is non-empty, otherwise
      the apology; never empty. */
  function FormatErrorResponse(message: string): (r: string)
    ensures message != "" ==> r == message
    ensures message == "" ==> r == Apology
    ensures r != ""
  {
    if message != "" then message else Apology
  }
}
