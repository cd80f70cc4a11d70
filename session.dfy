/** Conversation persistence (src/services/sessionManager.js): the chat
    messages, the open flag and a session id kept in the browser's
    `localStorage`, modelled as a string map with a flag saying whether
    storage can be used at all. Every accessor swallows storage failures. */
module Session {
  import opened Wrappers
  import opened Strs

  const MessagesKey: string := "chatbot_messages"
  const IsOpenKey: string := "chatbot_is_open"
  const SessionKey: string := "chatbot_session_id"

  /** A chat message; the timestamp is its time value in milliseconds. */
  datatype Message = Message(text: string, sender: string, timestamp: nat)

  /** The three storage keys are different. */
  lemma KeysDistinct()
    ensures MessagesKey != IsOpenKey && MessagesKey != SessionKey && IsOpenKey != SessionKey
  {
    assert MessagesKey[8] != IsOpenKey[8];
    assert MessagesKey[8] != SessionKey[8];
    assert IsOpenKey[8] != SessionKey[8];
  }

  // ----- The stored text of a message list -----
  // The messages are written as length-prefixed fields ("5:hello"); the
  // list starts with "[" so that even the empty list is stored as a
  // non-empty string, as `JSON.stringify([])` is.

  function Field(s: string): string
  {
    NatToString(|s|) + ":" + s
  }

  predicate AllDigits(s: string)
  {
    forall k :: 0 <= k < |s| ==> '0' <= s[k] <= '9'
  }

  /** One field off the front of `t`, and what follows it. */
  function ReadField(t: string): (r: Option<(string, string)>)
    ensures r.Some? ==> |r.value.1| < |t|
  {
    var digits := Before(t, ':');
    if digits == [] || |digits| == |t| || !AllDigits(digits) then None
    else
      var n := DigitsValue(digits);
      var rest := t[|digits| + 1..];
      if n > |rest| then None else Some((rest[..n], rest[n..]))
  }

  function Fields(xs: seq<string>): string
  {
    if xs == [] then "" else Field(xs[0]) + Fields(xs[1..])
  }

  /** `n` fields off the front of `t`, and what follows them. */
  function ReadFields(t: string, n: nat): (r: Option<(seq<string>, string)>)
    ensures r.Some? ==> |r.value.0| == n && |r.value.1| <= |t|
    ensures r.Some? && n > 0 ==> |r.value.1| < |t|
  {
    if n == 0 then Some(([], t))
    else
      match ReadField(t)
      case None => None
      case Some((f, rest)) =>
        match ReadFields(rest, n - 1)
        case None => None
        case Some((fs, after)) => Some(([f] + fs, after))
  }

  /** A message is three fields: text, sender and the time value. */
  function EncodeMessage(m: Message): string
  {
    Fields([m.text, m.sender, NatToString(m.timestamp)])
  }

  /** One message off the front of `t`, and what follows it. */
  function DecodeMessage(t: string): (r: Option<(Message, string)>)
    ensures r.Some? ==> |r.value.1| < |t|
  {
    match ReadFields(t, 3)
    case None => None
    case Some((fs, rest)) =>
      if fs[2] == [] || !AllDigits(fs[2]) then None
      else Some((Message(fs[0], fs[1], DigitsValue(fs[2])), rest))
  }

  function EncodeItems(ms: seq<Message>): string
  {
    if ms == [] then "" else EncodeMessage(ms[0]) + EncodeItems(ms[1..])
  }

  function DecodeItems(t: string): Option<seq<Message>>
    decreases |t|
  {
    if t == [] then Some([])
    else
      match DecodeMessage(t)
      case None => None
      case Some((m, rest)) =>
        match DecodeItems(rest)
        case None => None
        case Some(ms) => Some([m] + ms)
  }

  /** `JSON.stringify(messages)`. */
  function Encode(ms: seq<Message>): (r: string)
    ensures r != ""
  {
    "[" + EncodeItems(ms)
  }

  /** `JSON.parse`, failing on text this encoder cannot have written. */
  function Decode(t: string): Option<seq<Message>>
  {
    if t == [] || t[0] != '[' then None else DecodeItems(t[1..])
  }

  /** Everything before the first separator is the part free of it. */
  lemma {:induction false} BeforeSeparator(a: string, sep: char, b: string)
    requires sep !in a
    ensures Before(a + [sep] + b, sep) == a
  {
    if a != [] {
      BeforeSeparator(a[1..], sep, b);
      assert (a + [sep] + b)[1..] == a[1..] + [sep] + b;
    }
  }

  lemma ReadWrittenField(s: string, t: string)
    ensures ReadField(Field(s) + t) == Some((s, t))
  {
    var ds := NatToString(|s|);
    var x := Field(s) + t;
    assert x == ds + [':'] + (s + t);
    assert ':' !in ds;
    BeforeSeparator(ds, ':', s + t);
    DigitsValueOfNatToString(|s|);
    assert x[|ds| + 1..] == s + t;
    assert (s + t)[..|s|] == s && (s + t)[|s|..] == t;
  }

  lemma {:induction false} ReadWrittenFields(xs: seq<string>, t: string)
    ensures ReadFields(Fields(xs) + t, |xs|) == Some((xs, t))
  {
    if xs != [] {
      var rest := Fields(xs[1..]) + t;
      assert ReadField(Fields(xs) + t) == Some((xs[0], rest)) by {
        assert Fields(xs) + t == Field(xs[0]) + rest;
        ReadWrittenField(xs[0], rest);
      }
      assert ReadFields(rest, |xs| - 1) == Some((xs[1..], t)) by {
        ReadWrittenFields(xs[1..], t);
      }
      assert [xs[0]] + xs[1..] == xs;
    } else {
      assert Fields(xs) + t == t;
    }
  }

  lemma ReadWrittenMessage(m: Message, t: string)
    ensures DecodeMessage(EncodeMessage(m) + t) == Some((m, t))
  {
    var stamp := NatToString(m.timestamp);
    ReadWrittenFields([m.text, m.sender, stamp], t);
    DigitsValueOfNatToString(m.timestamp);
  }

  lemma {:induction false} DecodeEncodedItems(ms: seq<Message>)
    ensures DecodeItems(EncodeItems(ms)) == Some(ms)
  {
    if ms != [] {
      var rest := EncodeItems(ms[1..]);
      var t := EncodeItems(ms);
      assert t == EncodeMessage(ms[0]) + rest;
      assert DecodeMessage(t) == Some((ms[0], rest)) by {
        ReadWrittenMessage(ms[0], rest);
      }
      assert DecodeItems(rest) == Some(ms[1..]) by {
        DecodeEncodedItems(ms[1..]);
      }
      assert t != [];
      assert [ms[0]] + ms[1..] == ms;
    }
  }

  /** What is saved is what is loaded: text, sender and time value of
      every message, in order. */
  lemma DecodeEncode(ms: seq<Message>)
    ensures Decode(Encode(ms)) == Some(ms)
  {
    DecodeEncodedItems(ms);
    assert Encode(ms)[1..] == EncodeItems(ms);
  }

  // ----- What the accessors read -----

  /** loadMessages: the stored list, or the fallback when storage fails,
      the key is missing or empty, or the text does not parse. */
  function StoredMessages(items: map<string, string>, available: bool, fallback: seq<Message>): (r: seq<Message>)
    ensures !available || MessagesKey !in items ==> r == fallback
    ensures available && MessagesKey in items && Decode(items[MessagesKey]).Some? ==> r == Decode(items[MessagesKey]).value
    ensures available && MessagesKey in items && Decode(items[MessagesKey]).None? ==> r == fallback
  {
    if !available || MessagesKey !in items || items[MessagesKey] == "" then fallback
    else
      match Decode(items[MessagesKey])
      case None => fallback
      case Some(ms) => ms
  }

  function BoolText(b: bool): string
  {
    if b then "true" else "false"
  }

  /** loadIsOpen: true only for the stored text "true". */
  function StoredIsOpen(items: map<string, string>, available: bool): bool
  {
    available && IsOpenKey in items && items[IsOpenKey] == "true"
  }

  /** A usable stored session id. */
  function StoredSessionId(items: map<string, string>): Option<string>
  {
    if SessionKey in items && items[SessionKey] != "" then Some(items[SessionKey]) else None
  }

  /** The items after getOrCreateSessionId on usable storage: a stored id
      is kept, otherwise a new one is written; either way an id is stored
      afterwards and no other key changes. */
  function WithSessionId(items: map<string, string>, now: nat, random: string): (r: map<string, string>)
    ensures StoredSessionId(r).Some?
    ensures StoredSessionId(items).Some? ==> r == items
    ensures StoredSessionId(items).None? ==> StoredSessionId(r) == Some(NewSessionId(now, random))
    ensures r.Keys == items.Keys + {SessionKey}
    ensures forall k :: k in items && k != SessionKey ==> r[k] == items[k]
  {
    if StoredSessionId(items).Some? then items else items[SessionKey := NewSessionId(now, random)]
  }

  /** After a send that asked the backend, the saved state holds a
      session id, whether it was there before or was just created; a send
      that did not ask leaves the stored id as it was. */
  lemma SendStoresSessionId(items: map<string, string>, asked: bool, now: nat, random: string, text: string)
    ensures asked ==> StoredSessionId(WithSessionId(items, now, random)[MessagesKey := text]).Some?
    ensures StoredSessionId(items[MessagesKey := text]) == StoredSessionId(items)
  {
    KeysDistinct();
  }

  /** `s.slice(from, to)` for `0 <= from <= to`. */
  function Slice(s: string, from: nat, to: nat): (r: string)
    requires from <= to
    ensures |r| <= to - from
  {
    var a := if from < |s| then from else |s|;
    var b := if to < |s| then to else |s|;
    s[a..b]
  }

  /** A fresh id: "ccb-", the clock in base 36, "-", and up to six
      base-36 digits of the random number (`random` is its base-36
      text, "0.…"). */
  function NewSessionId(now: nat, random: string): (r: string)
    ensures StartsWith(r, "ccb-") && r != ""
  {
    "ccb-" + NatToBase(now, 36) + "-" + Slice(random, 2, 8)
  }

  /** localStorage, as the session manager uses it. */
  class Storage {
    var items: map<string, string>
    var available: bool

    constructor (items0: map<string, string>, available0: bool)
      ensures items == items0 && available == available0
    {
      items := items0;
      available := available0;
    }

    method LoadMessages(fallback: seq<Message>) returns (r: seq<Message>)
      ensures r == StoredMessages(items, available, fallback)
    {
      if !available {
        return fallback;
      }
      if MessagesKey !in items || items[MessagesKey] == "" {
        return fallback;
      }
      var parsed := Decode(items[MessagesKey]);
      if parsed.None? {
        return fallback;
      }
      r := parsed.value;
    }

    method SaveMessages(messages: seq<Message>)
      modifies this
      ensures available == old(available)
      ensures items == if available then old(items)[MessagesKey := Encode(messages)] else old(items)
    {
      if available {
        items := items[MessagesKey := Encode(messages)];
      }
    }

    method LoadIsOpen() returns (b: bool)
      ensures b == StoredIsOpen(items, available)
    {
      if !available {
        return false;
      }
      b := IsOpenKey in items && items[IsOpenKey] == "true";
    }

    method SaveIsOpen(isOpen: bool)
      modifies this
      ensures available == old(available)
      ensures items == if available then old(items)[IsOpenKey := BoolText(isOpen)] else old(items)
    {
      if available {
        items := items[IsOpenKey := BoolText(isOpen)];
      }
    }

    /** getOrCreateSessionId, with the clock and the random number passed
        in. */
    method GetOrCreateSessionId(now: nat, random: string) returns (r: Option<string>)
      modifies this
      ensures available == old(available)
      ensures !available ==> r == None && items == old(items)
      ensures available && StoredSessionId(old(items)).Some? ==> r == StoredSessionId(old(items)) && items == old(items)
      ensures available && StoredSessionId(old(items)).None? ==>
        (r == Some(NewSessionId(now, random)) && items == old(items)[SessionKey := NewSessionId(now, random)])
    {
      if !available {
        return None;
      }
      if SessionKey in items && items[SessionKey] != "" {
        return Some(items[SessionKey]);
      }
      var id := NewSessionId(now, random);
      items := items[SessionKey := id];
      r := Some(id);
    }

    method ClearSession()
      modifies this
      ensures available == old(available)
      ensures items == if available then old(items) - {MessagesKey, IsOpenKey} else old(items)
    {
      if available {
        items := items - {MessagesKey, IsOpenKey};
      }
    }
  }

  // ----- Properties across calls -----

  /** saveMessages then loadMessages gives the saved messages back. */
  lemma SaveLoadMessages(items: map<string, string>, ms: seq<Message>, fallback: seq<Message>)
    ensures StoredMessages(items[MessagesKey := Encode(ms)], true, fallback) == ms
  {
    DecodeEncode(ms);
  }

  /** saveIsOpen(b) then loadIsOpen gives b back. */
  lemma SaveLoadIsOpen(items: map<string, string>, b: bool)
    ensures StoredIsOpen(items[IsOpenKey := BoolText(b)], true) == b
  {
    assert BoolText(false)[0] != 't';
  }

  /** Once a fresh id is stored, later calls find it. */
  lemma CreatedIdStays(items: map<string, string>, now: nat, random: string)
    ensures StoredSessionId(items[SessionKey := NewSessionId(now, random)]) == Some(NewSessionId(now, random))
  {
  }

  /** clearSession drops the messages and the open flag, so both read as
      their defaults, and keeps the session id. */
  lemma ClearKeepsSessionId(items: map<string, string>, fallback: seq<Message>)
    ensures StoredMessages(items - {MessagesKey, IsOpenKey}, true, fallback) == fallback
    ensures !StoredIsOpen(items - {MessagesKey, IsOpenKey}, true)
    ensures StoredSessionId(items - {MessagesKey, IsOpenKey}) == StoredSessionId(items)
  {
    KeysDistinct();
  }
}
