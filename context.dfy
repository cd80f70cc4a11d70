/** Index building (src/services/contentContext.js): the searchable text
    of an entry, the token set every entry is indexed by, and the
    `{title, url, summary}` items sent to the backend as context. */
module Context {
  import opened Strs
  import opened Records
  import opened Text

  /** An entry of the knowledge index: the entry with every field kept,
      plus its token set. */
  datatype Indexed = Indexed(entry: Entry, tokens: set<string>)

  /** A scored item, as the query matcher ranks them. */
  datatype Scored<T> = Scored(item: T, score: real)

  /** What is sent to the backend about a match. */
  datatype ContextItem = ContextItem(title: string, url: string, summary: string)

  /** The six parts of the searchable text, in order; absent lists are
      empty and join to the empty string. */
  function EntryParts(e: Entry): (r: seq<string>)
    ensures |r| == 6
  {
    [e.title, e.summary, Join(e.keywords, " "), Join(e.details, " "), Join(e.actions, " "), e.extra]
  }

  /** buildEntryText: the parts joined by single spaces. */
  function EntryText(e: Entry): (r: string)
    ensures Contains(r, e.title) && Contains(r, e.summary) && Contains(r, e.extra)
    ensures forall k :: 0 <= k < |e.keywords| ==> Contains(r, e.keywords[k])
    ensures forall k :: 0 <= k < |e.details| ==> Contains(r, e.details[k])
    ensures forall k :: 0 <= k < |e.actions| ==> Contains(r, e.actions[k])
  {
    var parts := EntryParts(e);
    JoinContains(parts, " ", 0);
    JoinContains(parts, " ", 1);
    JoinContains(parts, " ", 5);
    ListPartsContained(parts, 2, e.keywords);
    ListPartsContained(parts, 3, e.details);
    ListPartsContained(parts, 4, e.actions);
    Join(parts, " ")
  }

  /** Every element of a list joined into one part occurs in the whole. */
  lemma ListPartsContained(parts: seq<string>, p: nat, list: seq<string>)
    requires p < |parts| && parts[p] == Join(list, " ")
    ensures forall k :: 0 <= k < |list| ==> Contains(Join(parts, " "), list[k])
  {
    JoinContains(parts, " ", p);
    forall k | 0 <= k < |list| ensures Contains(Join(parts, " "), list[k]) {
      JoinContains(list, " ", k);
      ContainsTrans(Join(parts, " "), parts[p], list[k]);
    }
  }

  /** The token set of an entry: `new Set(tokenize(buildEntryText(entry)))`. */
  function EntryTokens(e: Entry): (r: set<string>)
    ensures forall t :: t in r ==> IsToken(t)
  {
    var tokens := Tokenize(EntryText(e));
    set k | 0 <= k < |tokens| :: tokens[k]
  }

  /** The tokens of an entry are the words of its normalised text that
      are no stop words. */
  lemma EntryTokensAreWords(e: Entry, t: string)
    requires NormalizeText(EntryText(e)) != ""
    ensures t in EntryTokens(e) <==> !IsStopWord(t) && t in Split(NormalizeText(EntryText(e)), ' ')
  {
    var tokens := Tokenize(EntryText(e));
    TokensAreWords(EntryText(e));
    assert t in EntryTokens(e) <==> t in tokens by {
      if t in tokens {
        var k :| 0 <= k < |tokens| && tokens[k] == t;
      }
    }
    assert t in tokens <==> multiset(tokens)[t] > 0;
  }

  /** buildKnowledgeIndex: one indexed entry per entry, in order, each
      keeping the entry unchanged. */
  function KnowledgeIndex(entries: seq<Entry>): (r: seq<Indexed>)
    ensures |r| == |entries|
    ensures forall i :: 0 <= i < |r| ==> r[i].entry == entries[i] && r[i].tokens == EntryTokens(entries[i])
  {
    seq(|entries|, i requires 0 <= i < |entries| => Indexed(entries[i], EntryTokens(entries[i])))
  }

  /** Indexing distributes over concatenation, so the index of static
      and dynamic entries together is the two indexes one after the
      other. */
  lemma KnowledgeIndexAppend(a: seq<Entry>, b: seq<Entry>)
    ensures KnowledgeIndex(a + b) == KnowledgeIndex(a) + KnowledgeIndex(b)
  {
    var l, r := KnowledgeIndex(a + b), KnowledgeIndex(a) + KnowledgeIndex(b);
    forall i | 0 <= i < |l| ensures l[i] == r[i] {
      if i < |a| {
        assert (a + b)[i] == a[i];
      } else {
        assert (a + b)[i] == b[i - |a|];
      }
    }
  }

  /** buildContextItems: exactly title, url and summary of each match, in
      order. */
  function ContextItems(matches: seq<Scored<Indexed>>): (r: seq<ContextItem>)
    ensures |r| == |matches|
    ensures forall i :: 0 <= i < |r| ==>
      var e := matches[i].item.entry;
      r[i].title == e.title && r[i].url == e.url && r[i].summary == e.summary
  {
    seq(|matches|, i requires 0 <= i < |matches| =>
      var e := matches[i].item.entry;
      ContextItem(e.title, e.url, e.summary))
  }
}
