/** The link parser of a chat bubble (src/components/ChatBot/Message.jsx):
    the text is cut into plain pieces and `[anchor](url)` links, found
    left to right by the pattern `\[([^\]]+)\]\(([^)]+)\)`. */
module Links {
  import opened Wrappers

  datatype Part = TextPart(content: string) | LinkPart(anchor: string, url: string)

  /** What the bubble shows: the text itself, or the parts. */
  datatype Rendered = Plain(text: string) | Parts(parts: seq<Part>)

  /** A link match: its two groups and the index just past it. */
  datatype Link = Link(anchor: string, url: string, end: nat)

  lemma Assoc<T>(a: seq<T>, b: seq<T>, c: seq<T>)
    ensures a + (b + c) == (a + b) + c
  {
  }

  lemma SliceSplit<T>(s: seq<T>, a: nat, b: nat, c: nat)
    requires a <= b <= c <= |s|
    ensures s[a..c] == s[a..b] + s[b..c]
  {
  }

  /** The written form of a link. */
  function LinkText(anchor: string, url: string): string
  {
    "[" + anchor + "](" + url + ")"
  }

  /** Where the brackets of a written link are. */
  lemma LinkTextLayout(anchor: string, url: string)
    ensures var w := LinkText(anchor, url);
      |w| == |anchor| + |url| + 4 && w[0] == '[' && w[|anchor| + 1] == ']' && w[|anchor| + 2] == '('
      && w[|anchor| + |url| + 3] == ')'
      && (forall m :: 0 <= m < |anchor| ==> w[m + 1] == anchor[m])
      && (forall m :: 0 <= m < |url| ==> w[m + |anchor| + 3] == url[m])
  {
  }

  /** The first index at or after `from` holding `c`, or |s|. */
  function FindFrom(s: string, c: char, from: nat): (r: nat)
    requires from <= |s|
    ensures from <= r <= |s|
    ensures r < |s| ==> s[r] == c
    decreases |s| - from
  {
    if from == |s| || s[from] == c then from else FindFrom(s, c, from + 1)
  }

  /** FindFrom skips only other characters, and stops at the first `c`. */
  lemma {:induction false} FindFromFirst(s: string, c: char, from: nat, at: nat)
    requires from <= at <= |s|
    ensures (forall k :: from <= k < at ==> s[k] != c) && (at < |s| ==> s[at] == c) ==> FindFrom(s, c, from) == at
    ensures at < FindFrom(s, c, from) ==> s[at] != c
    decreases |s| - from
  {
    if from < at && s[from] != c {
      FindFromFirst(s, c, from + 1, at);
    }
  }

  /** The pattern anchored at index i: a "[", a anchor up to the first "]"
      (at least one character), then "(", a url up to the first ")" (at
      least one character). The character classes exclude the closing
      bracket, so there is no other way to match at i. */
  function MatchAt(text: string, i: nat): (r: Option<Link>)
    ensures r.Some? ==> i < r.value.end <= |text|
  {
    if i < |text| && text[i] == '[' then
      var j := FindFrom(text, ']', i + 1);
      if j > i + 1 && j + 1 < |text| && text[j + 1] == '(' then
        var k := FindFrom(text, ')', j + 2);
        if k > j + 2 && k < |text| then
          Some(Link(text[i + 1..j], text[j + 2..k], k + 1))
        else None
      else None
    else None
  }

  /** A match is a written link: the text between its ends is
      `[anchor](url)`, the anchor non-empty without "]", the url
      non-empty without ")". */
  lemma MatchAtSound(text: string, i: nat)
    requires MatchAt(text, i).Some?
    ensures var link := MatchAt(text, i).value;
      text[i..link.end] == LinkText(link.anchor, link.url)
      && link.anchor != "" && ']' !in link.anchor && link.url != "" && ')' !in link.url
  {
    MatchAtWritten(text, i);
    MatchAtClasses(text, i);
  }

  lemma MatchAtWritten(text: string, i: nat)
    requires MatchAt(text, i).Some?
    ensures var link := MatchAt(text, i).value;
      text[i..link.end] == LinkText(link.anchor, link.url)
  {
    var j := FindFrom(text, ']', i + 1);
    var k := FindFrom(text, ')', j + 2);
    SlicesFormLink(text, i, j, k);
  }

  /** Brackets at i, j, j + 1 and k frame a written link. */
  lemma SlicesFormLink(text: string, i: nat, j: nat, k: nat)
    requires i + 1 < j && j + 2 < k < |text|
    requires text[i] == '[' && text[j] == ']' && text[j + 1] == '(' && text[k] == ')'
    ensures text[i..k + 1] == LinkText(text[i + 1..j], text[j + 2..k])
  {
    var anchor := text[i + 1..j];
    var url := text[j + 2..k];
    var w := LinkText(anchor, url);
    LinkTextLayout(anchor, url);
    forall m | 0 <= m < |w| ensures text[i..k + 1][m] == w[m] {
      if 1 <= m <= |anchor| {
        assert anchor[m - 1] == text[i + m];
      } else if |anchor| + 3 <= m < |anchor| + |url| + 3 {
        assert url[m - |anchor| - 3] == text[i + m];
      }
    }
  }

  lemma MatchAtClasses(text: string, i: nat)
    requires MatchAt(text, i).Some?
    ensures var link := MatchAt(text, i).value;
      link.anchor != "" && ']' !in link.anchor && link.url != "" && ')' !in link.url
  {
    var j := FindFrom(text, ']', i + 1);
    var k := FindFrom(text, ')', j + 2);
    var anchor := text[i + 1..j];
    var url := text[j + 2..k];
    forall m | 0 <= m < |anchor| ensures anchor[m] != ']' {
      FindFromFirst(text, ']', i + 1, i + 1 + m);
    }
    forall m | 0 <= m < |url| ensures url[m] != ')' {
      FindFromFirst(text, ')', j + 2, j + 2 + m);
    }
  }

  /** Every written link is matched where it starts: MatchAt finds
      exactly the decompositions the pattern allows. */
  lemma MatchAtComplete(text: string, i: nat, anchor: string, url: string)
    requires anchor != "" && ']' !in anchor && url != "" && ')' !in url
    requires i + |LinkText(anchor, url)| <= |text| && text[i..i + |LinkText(anchor, url)|] == LinkText(anchor, url)
    ensures MatchAt(text, i) == Some(Link(anchor, url, i + |LinkText(anchor, url)|))
  {
    var j := i + 1 + |anchor|;
    var k := j + 2 + |url|;
    WrittenLinkAt(text, i, anchor, url);
    FindFromFirst(text, ']', i + 1, j);
    FindFromFirst(text, ')', j + 2, k);
  }

  /** Where the characters of a written link sit in the text. */
  lemma WrittenLinkAt(text: string, i: nat, anchor: string, url: string)
    requires anchor != "" && ']' !in anchor && url != "" && ')' !in url
    requires i + |LinkText(anchor, url)| <= |text| && text[i..i + |LinkText(anchor, url)|] == LinkText(anchor, url)
    ensures var j := i + 1 + |anchor|; var k := j + 2 + |url|;
      k == i + |LinkText(anchor, url)| - 1 && k < |text|
      && text[i] == '[' && text[j] == ']' && text[j + 1] == '(' && text[k] == ')'
      && text[i + 1..j] == anchor && text[j + 2..k] == url
      && (forall m :: i + 1 <= m < j ==> text[m] != ']')
      && (forall m :: j + 2 <= m < k ==> text[m] != ')')
  {
    var w := LinkText(anchor, url);
    LinkTextLayout(anchor, url);
    var j := i + 1 + |anchor|;
    var k := j + 2 + |url|;
    assert forall m :: 0 <= m < |w| ==> text[i + m] == w[m] by {
      forall m | 0 <= m < |w| ensures text[i + m] == w[m] {
        assert text[i..i + |w|][m] == text[i + m];
      }
    }
    assert text[i + 1..j] == anchor by {
      forall m | 0 <= m < |anchor| ensures text[i + 1..j][m] == anchor[m] {
        assert text[i + (m + 1)] == w[m + 1];
      }
    }
    assert text[j + 2..k] == url by {
      forall m | 0 <= m < |url| ensures text[j + 2..k][m] == url[m] {
        assert text[i + (m + |anchor| + 3)] == w[m + |anchor| + 3];
      }
    }
    assert text[i] == '[' && text[j] == ']' && text[j + 1] == '(' && text[k] == ')' by {
      assert text[i + 0] == w[0];
      assert text[i + (|anchor| + 1)] == w[|anchor| + 1];
      assert text[i + (|anchor| + 2)] == w[|anchor| + 2];
      assert text[i + (|anchor| + |url| + 3)] == w[|anchor| + |url| + 3];
    }
    forall m | i + 1 <= m < j ensures text[m] != ']' {
      assert text[m] == text[i + 1..j][m - i - 1];
    }
    forall m | j + 2 <= m < k ensures text[m] != ')' {
      assert text[m] == text[j + 2..k][m - j - 2];
    }
  }

  /** `linkRegex.exec` from index `from`: the leftmost match at or after
      it. */
  function NextLink(text: string, from: nat): (r: Option<nat>)
    requires from <= |text|
    ensures r.Some? ==> from <= r.value < |text| && MatchAt(text, r.value).Some?
    decreases |text| - from
  {
    if from == |text| then None
    else if MatchAt(text, from).Some? then Some(from)
    else NextLink(text, from + 1)
  }

  /** The match exec finds is the leftmost one: there is none between
      `from` and it, and none at all when it finds nothing. */
  lemma {:induction false} NextLinkLeftmost(text: string, from: nat, j: nat)
    requires from <= j <= |text|
    ensures NextLink(text, from).Some? && j < NextLink(text, from).value ==> MatchAt(text, j).None?
    ensures NextLink(text, from).None? ==> MatchAt(text, j).None?
    decreases |text| - from
  {
    if from < j {
      NextLinkLeftmost(text, from + 1, j);
    }
  }

  /** The parts of text[from..]: the plain piece before the next link (if
      not empty), the link, and the parts after it; a non-empty tail
      without links is one plain piece. */
  function Pieces(text: string, from: nat): seq<Part>
    requires from <= |text|
    decreases |text| - from
  {
    match NextLink(text, from)
    case None => if from < |text| then [TextPart(text[from..])] else []
    case Some(i) =>
      var link := MatchAt(text, i).value;
      (if i > from then [TextPart(text[from..i])] else []) + [LinkPart(link.anchor, link.url)]
      + Pieces(text, link.end)
  }

  /** The parts written back as text. */
  function Written(parts: seq<Part>): string
  {
    if parts == [] then "" else PartText(parts[0]) + Written(parts[1..])
  }

  function PartText(p: Part): string
  {
    match p
    case TextPart(c) => c
    case LinkPart(l, u) => LinkText(l, u)
  }

  lemma {:induction false} WrittenAppend(a: seq<Part>, b: seq<Part>)
    ensures Written(a + b) == Written(a) + Written(b)
  {
    if a != [] {
      WrittenAppend(a[1..], b);
      assert (a + b)[1..] == a[1..] + b;
      Assoc(PartText(a[0]), Written(a[1..]), Written(b));
    } else {
      assert a + b == b;
    }
  }

  lemma {:induction false} WrittenThree(before: seq<Part>, link: Part, rest: seq<Part>)
    ensures Written(before + [link] + rest) == Written(before) + PartText(link) + Written(rest)
  {
    assert Written([link]) == PartText(link) by {
      assert [link][1..] == [];
    }
    Assoc(before, [link], rest);
    WrittenAppend(before, [link] + rest);
    WrittenAppend([link], rest);
  }

  lemma SliceSplit3<T>(s: seq<T>, a: nat, b: nat, c: nat)
    requires a <= b <= c <= |s|
    ensures s[a..] == s[a..b] + s[b..c] + s[c..]
  {
    SliceSplit(s, b, c, |s|);
    SliceSplit(s, a, b, |s|);
  }

  /** Writing the parts back gives the text exactly. */
  lemma {:induction false} PiecesRoundTrip(text: string, from: nat)
    requires from <= |text|
    ensures Written(Pieces(text, from)) == text[from..]
    decreases |text| - from
  {
    match NextLink(text, from)
    case None =>
      if from < |text| {
        assert [TextPart(text[from..])][1..] == [];
      }
    case Some(i) =>
      var link := MatchAt(text, i).value;
      MatchAtWritten(text, i);
      PiecesRoundTrip(text, link.end);
      var before: seq<Part> := if i > from then [TextPart(text[from..i])] else [];
      WrittenThree(before, LinkPart(link.anchor, link.url), Pieces(text, link.end));
      assert Written(before) == text[from..i] by {
        if i > from {
          assert before[1..] == [];
        }
      }
      SliceSplit3(text, from, i, link.end);
  }

  /** Shape of the parts: no plain piece is empty, no two plain pieces
      are adjacent, every link has a non-empty anchor without "]" and a
      non-empty url without ")". */
  predicate WellFormed(parts: seq<Part>)
  {
    (forall k :: 0 <= k < |parts| ==> parts[k] != TextPart(""))
    && (forall k :: 0 <= k < |parts| && parts[k].LinkPart? ==>
          parts[k].anchor != "" && ']' !in parts[k].anchor && parts[k].url != "" && ')' !in parts[k].url)
    && (forall k :: 0 <= k < |parts| - 1 ==> parts[k].LinkPart? || parts[k + 1].LinkPart?)
  }

  /** A part on its own: a plain piece is not empty, a link has a
      non-empty anchor without "]" and a non-empty url without ")". */
  predicate PartOk(p: Part)
  {
    match p
    case TextPart(c) => c != ""
    case LinkPart(a, u) => a != "" && ']' !in a && u != "" && ')' !in u
  }

  /** WellFormed, stated part by part from the front. */
  predicate Chain(parts: seq<Part>)
  {
    parts == [] ||
    (PartOk(parts[0]) && (|parts| >= 2 ==> parts[0].LinkPart? || parts[1].LinkPart?) && Chain(parts[1..]))
  }

  lemma {:induction false} ChainWellFormed(parts: seq<Part>)
    requires Chain(parts)
    ensures WellFormed(parts)
  {
    if parts != [] {
      ChainWellFormed(parts[1..]);
      assert forall k :: 1 <= k < |parts| ==> parts[k] == parts[1..][k - 1];
    }
  }

  /** A link between an optional plain piece and a chain is a chain. */
  lemma ChainCons(before: seq<Part>, link: Part, rest: seq<Part>)
    requires link.LinkPart? && PartOk(link) && Chain(rest)
    requires before == [] || (|before| == 1 && before[0].TextPart? && PartOk(before[0]))
    ensures Chain(before + [link] + rest)
  {
    var tail := [link] + rest;
    assert tail[1..] == rest;
    if before != [] {
      assert (before + [link] + rest)[1..] == tail;
    } else {
      assert before + [link] + rest == tail;
    }
  }

  lemma {:induction false} PiecesChain(text: string, from: nat)
    requires from <= |text|
    ensures Chain(Pieces(text, from))
    decreases |text| - from
  {
    match NextLink(text, from)
    case None =>
      if from < |text| {
        assert [TextPart(text[from..])][1..] == [];
      }
    case Some(i) =>
      var link := MatchAt(text, i).value;
      MatchAtClasses(text, i);
      PiecesChain(text, link.end);
      var before: seq<Part> := if i > from then [TextPart(text[from..i])] else [];
      ChainCons(before, LinkPart(link.anchor, link.url), Pieces(text, link.end));
  }

  lemma PiecesWellFormed(text: string, from: nat)
    requires from <= |text|
    ensures WellFormed(Pieces(text, from))
  {
    PiecesChain(text, from);
    ChainWellFormed(Pieces(text, from));
  }

  /** Where the matches of the exec loop start. */
  function Starts(text: string, from: nat): seq<nat>
    requires from <= |text|
    decreases |text| - from
  {
    match NextLink(text, from)
    case None => []
    case Some(i) => [i] + Starts(text, MatchAt(text, i).value.end)
  }

  /** Every start is a match at or after `from`, and the next start is
      at or after its end. */
  predicate InOrder(text: string, s: seq<nat>, from: nat)
  {
    s == [] ||
    (from <= s[0] < |text| && MatchAt(text, s[0]).Some? && InOrder(text, s[1..], MatchAt(text, s[0]).value.end))
  }

  lemma {:induction false} StartsInOrder(text: string, from: nat)
    requires from <= |text|
    ensures InOrder(text, Starts(text, from), from)
    decreases |text| - from
  {
    match NextLink(text, from)
    case None =>
    case Some(i) =>
      var e := MatchAt(text, i).value.end;
      StartsInOrder(text, e);
      assert ([i] + Starts(text, e))[1..] == Starts(text, e);
  }

  lemma {:induction false} InOrderMeans(text: string, s: seq<nat>, from: nat)
    requires InOrder(text, s, from)
    ensures forall k :: 0 <= k < |s| ==> from <= s[k] < |text| && MatchAt(text, s[k]).Some?
    ensures forall k :: 0 <= k < |s| - 1 ==> MatchAt(text, s[k]).value.end <= s[k + 1]
  {
    if s != [] {
      var e := MatchAt(text, s[0]).value.end;
      InOrderMeans(text, s[1..], e);
      assert forall k :: 1 <= k < |s| ==> s[k] == s[1..][k - 1];
    }
  }

  /** The matches run left to right without overlapping: each starts at
      or after the end of the one before, and the first at or after
      `from`. */
  lemma StartsOrdered(text: string, from: nat)
    requires from <= |text|
    ensures var s := Starts(text, from);
      (forall k :: 0 <= k < |s| ==> from <= s[k] < |text| && MatchAt(text, s[k]).Some?)
      && (forall k :: 0 <= k < |s| - 1 ==> MatchAt(text, s[k]).value.end <= s[k + 1])
  {
    StartsInOrder(text, from);
    InOrderMeans(text, Starts(text, from), from);
  }

  /** The link parts, in order. */
  function LinkParts(parts: seq<Part>): seq<Part>
  {
    if parts == [] then []
    else (if parts[0].LinkPart? then [parts[0]] else []) + LinkParts(parts[1..])
  }

  /** The links matched at the given starts. */
  function LinksAt(text: string, s: seq<nat>): seq<Part>
  {
    if s == [] then []
    else
      var m := MatchAt(text, s[0]);
      (if m.Some? then [LinkPart(m.value.anchor, m.value.url)] else []) + LinksAt(text, s[1..])
  }

  lemma LinkPartsCons(before: seq<Part>, link: Part, rest: seq<Part>)
    requires link.LinkPart?
    requires before == [] || (|before| == 1 && before[0].TextPart?)
    ensures LinkParts(before + [link] + rest) == [link] + LinkParts(rest)
  {
    var tail := [link] + rest;
    assert tail[1..] == rest;
    if before != [] {
      assert (before + [link] + rest)[1..] == tail;
    } else {
      assert before + [link] + rest == tail;
    }
  }

  /** The link parts are the matches found at Starts, one each. */
  lemma {:induction false} PiecesLinks(text: string, from: nat)
    requires from <= |text|
    ensures LinkParts(Pieces(text, from)) == LinksAt(text, Starts(text, from))
    decreases |text| - from
  {
    match NextLink(text, from)
    case None =>
      if from < |text| {
        assert [TextPart(text[from..])][1..] == [];
      }
    case Some(i) =>
      var link := MatchAt(text, i).value;
      PiecesLinks(text, link.end);
      var before: seq<Part> := if i > from then [TextPart(text[from..i])] else [];
      LinkPartsCons(before, LinkPart(link.anchor, link.url), Pieces(text, link.end));
      assert ([i] + Starts(text, link.end))[1..] == Starts(text, link.end);
  }

  /** Text without any link is one plain piece. */
  lemma NoLinkOnePiece(text: string)
    requires text != ""
    requires forall j :: 0 <= j < |text| ==> MatchAt(text, j).None?
    ensures Pieces(text, 0) == [TextPart(text)]
  {
    NoMatchNoLink(text, 0);
  }

  lemma {:induction false} NoMatchNoLink(text: string, from: nat)
    requires from <= |text|
    requires forall j :: from <= j < |text| ==> MatchAt(text, j).None?
    ensures NextLink(text, from).None?
    decreases |text| - from
  {
    if from < |text| {
      NoMatchNoLink(text, from + 1);
    }
  }

  /** One turn of the exec loop: the plain piece before the match (when
      not empty) and the link are pushed, and the search goes on after
      the match. */
  method PushMatch(text: string, parts: seq<Part>, lastIndex: nat, index: nat) returns (next: seq<Part>, nextIndex: nat)
    requires lastIndex <= |text| && NextLink(text, lastIndex) == Some(index)
    ensures lastIndex < nextIndex <= |text|
    ensures next + Pieces(text, nextIndex) == parts + Pieces(text, lastIndex)
  {
    var link := MatchAt(text, index).value;
    var before: seq<Part> := [];
    if index > lastIndex {
      before := [TextPart(text[lastIndex..index])];
    }
    var step := before + [LinkPart(link.anchor, link.url)];
    Assoc(parts, step, Pieces(text, link.end));
    next := parts + step;
    nextIndex := link.end;
  }

  /** The exec loop of renderMessage: the plain piece before each match
      and the match itself are pushed, then the rest of the text. */
  method CollectParts(text: string) returns (parts: seq<Part>)
    ensures parts == Pieces(text, 0)
  {
    parts := [];
    var lastIndex: nat := 0;
    var found := NextLink(text, lastIndex);
    while found.Some?
      invariant lastIndex <= |text|
      invariant found == NextLink(text, lastIndex)
      invariant parts + Pieces(text, lastIndex) == Pieces(text, 0)
      decreases |text| - lastIndex
    {
      parts, lastIndex := PushMatch(text, parts, lastIndex, found.value);
      found := NextLink(text, lastIndex);
    }
    if lastIndex < |text| {
      parts := parts + [TextPart(text[lastIndex..])];
    }
  }

  /** renderMessage: the empty text is returned as it is; otherwise the
      text is shown plain when there is no part or only one plain part. */
  method RenderMessage(text: string) returns (r: Rendered)
    ensures text == "" ==> r == Plain(text)
    ensures text != "" ==>
      (var p := Pieces(text, 0);
       r == if p == [] || (|p| == 1 && p[0].TextPart?) then Plain(text) else Parts(p))
  {
    if text == "" {
      return Plain(text);
    }
    var parts := CollectParts(text);
    if |parts| == 0 || (|parts| == 1 && parts[0].TextPart?) {
      r := Plain(text);
    } else {
      r := Parts(parts);
    }
  }

  /** What is shown always carries the text exactly: either the text
      itself, or well-formed parts that write back to it. */
  lemma RenderedFaithful(text: string)
    ensures WellFormed(Pieces(text, 0)) && Written(Pieces(text, 0)) == text
  {
    PiecesRoundTrip(text, 0);
    PiecesWellFormed(text, 0);
  }
}
