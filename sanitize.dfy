/** Input sanitising (src/utils/sanitize.js `sanitizeInput`), and the
    cleaning pipeline it shares with the portal's two Python sanitisers:
    drop the control characters, trim, then cut to the length limit. A
    limit of 0 stands for an absent or falsy `maxLength`, which disables
    the cut. */
module Sanitize {
  import opened Strs

  /** The character class `[\x00-\x08\x0B-\x0C\x0E-\x1F\x7F]`: the C0
      controls and DEL, except tab, line feed and carriage return. */
  predicate IsControl(c: char)
  {
    c <= '\U{0008}' || c == '\U{000B}' || c == '\U{000C}' || ('\U{000E}' <= c <= '\U{001F}') || c == '\U{007F}'
  }

  /** The input without control characters, trimmed by `ws`. */
  function Stripped(s: string, ws: char -> bool): string
  {
    TrimBy(RemoveChars(s, IsControl), ws)
  }

  /** Remove controls, trim, and keep the first `maxLength` characters
      when there are more and the limit is set. */
  function Cleaned(s: string, ws: char -> bool, maxLength: nat): (r: string)
    ensures maxLength > 0 ==> |r| <= maxLength
  {
    var t := Stripped(s, ws);
    if maxLength > 0 && |t| > maxLength then t[..maxLength] else t
  }

  /** The stripped input keeps only characters of the input, and none of
      them a control. */
  lemma StrippedChars(s: string, ws: char -> bool)
    ensures forall c :: c in Stripped(s, ws) ==> c in s && !IsControl(c)
  {
    var removed := RemoveChars(s, IsControl);
    TrimByChars(removed, ws);
    forall c | c in removed ensures !IsControl(c) {
      var j :| 0 <= j < |removed| && removed[j] == c;
    }
  }

  /** What the pipeline guarantees: no control character, only characters
      of the input, no leading character of the class, and the limit
      kept. */
  lemma CleanedFacts(s: string, ws: char -> bool, maxLength: nat)
    ensures forall k :: 0 <= k < |Cleaned(s, ws, maxLength)| ==> !IsControl(Cleaned(s, ws, maxLength)[k])
    ensures forall c :: c in Cleaned(s, ws, maxLength) ==> c in s
    ensures Cleaned(s, ws, maxLength) != "" ==> !ws(Cleaned(s, ws, maxLength)[0])
    ensures maxLength > 0 ==> |Cleaned(s, ws, maxLength)| <= maxLength
  {
    var t := Stripped(s, ws);
    var r := Cleaned(s, ws, maxLength);
    assert forall c :: c in r ==> c in t by {
      forall c | c in r ensures c in t {
        var k :| 0 <= k < |r| && r[k] == c;
        assert t[k] == c;
      }
    }
    StrippedChars(s, ws);
  }

  /** Without a cut the result is the stripped input, which does not end
      in a character of the class either. */
  lemma UncutFacts(s: string, ws: char -> bool, maxLength: nat)
    requires maxLength == 0 || |Stripped(s, ws)| <= maxLength
    ensures Cleaned(s, ws, maxLength) == Stripped(s, ws)
    ensures Stripped(s, ws) != "" ==> !ws(Stripped(s, ws)[|Stripped(s, ws)| - 1])
  {
    var t := TrimBy(RemoveChars(s, IsControl), ws);
    assert t == Stripped(s, ws);
    assert !(maxLength > 0 && |t| > maxLength);
  }

  /** Removing controls from a string that has none changes nothing. */
  lemma {:induction false} RemoveNothing(s: string)
    requires forall k :: 0 <= k < |s| ==> !IsControl(s[k])
    ensures RemoveChars(s, IsControl) == s
  {
    if s != [] {
      assert forall k :: 0 <= k < |s[1..]| ==> !IsControl(s[1..][k]) by {
        forall k | 0 <= k < |s[1..]| ensures !IsControl(s[1..][k]) {
          assert s[1..][k] == s[k + 1];
        }
      }
      RemoveNothing(s[1..]);
      assert s == [s[0]] + s[1..];
    }
  }

  /** A clean string is left alone: no controls, trimmed, within the
      limit. */
  lemma CleanStaysClean(s: string, ws: char -> bool, maxLength: nat)
    requires forall k :: 0 <= k < |s| ==> !IsControl(s[k])
    requires s != "" ==> !ws(s[0]) && !ws(s[|s| - 1])
    requires maxLength == 0 || |s| <= maxLength
    ensures Cleaned(s, ws, maxLength) == s
  {
    RemoveNothing(s);
    TrimByNoop(s, ws);
  }

  /** Cleaning twice is cleaning once, whenever the result does not end
      in a character of the class (it can only after a cut). */
  lemma CleanedIdempotent(s: string, ws: char -> bool, maxLength: nat)
    requires var r := Cleaned(s, ws, maxLength); r != "" ==> !ws(r[|r| - 1])
    ensures Cleaned(Cleaned(s, ws, maxLength), ws, maxLength) == Cleaned(s, ws, maxLength)
  {
    CleanedFacts(s, ws, maxLength);
    CleanStaysClean(Cleaned(s, ws, maxLength), ws, maxLength);
  }

  /** `t.substring(0, end)`: a negative end counts as 0 and an end past
      the length as the length. */
  function Substring(t: string, end: int): (r: string)
    ensures |r| == if end < 0 then 0 else if end > |t| then |t| else end
    ensures r <= t
  {
    if end < 0 then "" else if end > |t| then t else t[..end]
  }

  /** sanitizeInput: the empty string for a falsy input (null and
      undefined are the empty string here), else the pipeline with
      JavaScript's trim. A limit of 0 is falsy and cuts nothing; a
      negative limit is truthy, every length exceeds it, and the
      substring it asks for is empty. */
  function SanitizeInput(input: string, maxLength: int): (r: string)
    ensures input == "" ==> r == ""
    ensures input != "" && maxLength >= 0 ==> r == Cleaned(input, IsJsSpace, maxLength)
    ensures maxLength < 0 ==> r == ""
  {
    if input == "" then ""
    else
      var t := Stripped(input, IsJsSpace);
      if maxLength != 0 && |t| > maxLength then Substring(t, maxLength) else t
  }

  /** The promises of sanitizeInput: no control characters, no leading
      whitespace, the limit kept when set, nothing cut when it is not,
      and no trailing whitespace when nothing was cut. */
  lemma SanitizeInputFacts(input: string, maxLength: int)
    ensures forall k :: 0 <= k < |SanitizeInput(input, maxLength)| ==> !IsControl(SanitizeInput(input, maxLength)[k])
    ensures SanitizeInput(input, maxLength) != "" ==> !IsJsSpace(SanitizeInput(input, maxLength)[0])
    ensures maxLength > 0 ==> |SanitizeInput(input, maxLength)| <= maxLength
    ensures maxLength == 0 ==> SanitizeInput(input, maxLength) == JsTrim(RemoveChars(input, IsControl))
    ensures |JsTrim(RemoveChars(input, IsControl))| <= maxLength || maxLength == 0 ==>
      (SanitizeInput(input, maxLength) == JsTrim(RemoveChars(input, IsControl))
       && (SanitizeInput(input, maxLength) != "" ==> !IsJsSpace(SanitizeInput(input, maxLength)[|SanitizeInput(input, maxLength)| - 1])))
  {
    if input == "" {
      assert RemoveChars(input, IsControl) == "";
    } else if maxLength >= 0 {
      CleanedFacts(input, IsJsSpace, maxLength);
    }
  }

  lemma CutExample()
    ensures Stripped("ab c", IsJsSpace) == "ab c"
  {
    assert RemoveChars("ab c", IsControl) == "ab c" by {
      RemoveNothing("ab c");
    }
    TrimByNoop("ab c", IsJsSpace);
  }

  /** The cut comes after the trim, so the result can end in a space:
      "ab c" with a limit of 3 gives "ab ". */
  lemma CutCanEndInSpace()
    ensures SanitizeInput("ab c", 3) == "ab "
  {
    CutExample();
    assert "ab c"[..3] == "ab ";
  }
}
