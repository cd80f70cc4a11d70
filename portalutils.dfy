/** The portal's sanitising helpers (portal/utils.py): HTML escaping with
    line breaks turned into `<br/>` tags, the input cleaner shared with the
    front end's, and the checks on an uploaded file. */
module PortalUtils {
  import opened Wrappers
  import opened Strs
  import opened Sanitize

  // ---------------------------------------------------------------------
  // html.escape(text, quote=True)

  /** The five characters `html.escape` rewrites. */
  predicate IsSpecial(c: char)
  {
    c == '&' || c == '<' || c == '>' || c == '"' || c == '\''
  }

  function EscapeChar(c: char): (r: string)
    ensures r != [] && r[0] == (if IsSpecial(c) then '&' else c)
    ensures forall d :: d in r ==> d != '<' && d != '>' && d != '"' && d != '\''
    ensures !IsSpecial(c) ==> r == [c]
  {
    match c
    case '&' => "&amp;"
    case '<' => "&lt;"
    case '>' => "&gt;"
    case '"' => "&quot;"
    case '\'' => "&#x27;"
    case _ => [c]
  }

  /** Each character replaced by its escape, left to right. */
  function Escape(s: string): (r: string)
    ensures s != [] ==> r != [] && r[0] == EscapeChar(s[0])[0]
    decreases |s|
  {
    if s == [] then [] else EscapeChar(s[0]) + Escape(s[1..])
  }

  /** Escaped text holds no markup character: no `<`, `>` or quote. */
  lemma {:induction false} EscapeHasNoMarkup(s: string)
    ensures forall c :: c in Escape(s) ==> c != '<' && c != '>' && c != '"' && c != '\''
    decreases |s|
  {
    if s != [] {
      EscapeHasNoMarkup(s[1..]);
      assert Escape(s) == EscapeChar(s[0]) + Escape(s[1..]);
    }
  }

  /** Text without special characters is left alone. */
  lemma {:induction false} EscapePlain(s: string)
    requires forall c :: c in s ==> !IsSpecial(c)
    ensures Escape(s) == s
    decreases |s|
  {
    if s != [] {
      assert s[0] in s;
      assert forall c :: c in s[1..] ==> c in s;
      EscapePlain(s[1..]);
      assert s == [s[0]] + s[1..];
    }
  }

  /** The decoder of the five entities, as `html.unescape` reads them;
      each entity is recognised by its characters after the `&`. */
  function Unescape(s: string): string
    decreases |s|
  {
    if s == [] then []
    else if s[0] != '&' then [s[0]] + Unescape(s[1..])
    else if |s| >= 5 && s[1] == 'a' && s[2] == 'm' && s[3] == 'p' && s[4] == ';' then "&" + Unescape(s[5..])
    else if |s| >= 4 && s[1] == 'l' && s[2] == 't' && s[3] == ';' then "<" + Unescape(s[4..])
    else if |s| >= 4 && s[1] == 'g' && s[2] == 't' && s[3] == ';' then ">" + Unescape(s[4..])
    else if |s| >= 6 && s[1] == 'q' && s[2] == 'u' && s[3] == 'o' && s[4] == 't' && s[5] == ';' then "\"" + Unescape(s[6..])
    else if |s| >= 6 && s[1] == '#' && s[2] == 'x' && s[3] == '2' && s[4] == '7' && s[5] == ';' then "'" + Unescape(s[6..])
    else "&" + Unescape(s[1..])
  }

  /** Decoding an entity followed by more text: `e` is the entity and `c`
      the character it stands for. */
  lemma UnescapeEntity(e: string, c: char, rest: string)
    requires e in ["&amp;", "&lt;", "&gt;", "&quot;", "&#x27;"]
    requires c == (if e == "&amp;" then '&' else if e == "&lt;" then '<' else if e == "&gt;" then '>' else if e == "&quot;" then '"' else '\'')
    ensures Unescape(e + rest) == [c] + Unescape(rest)
  {
    var s := e + rest;
    assert forall k :: 0 <= k < |e| ==> s[k] == e[k];
    assert s[|e|..] == rest;
  }

  lemma UnescapeOther(c: char, rest: string)
    requires c != '&'
    ensures Unescape([c] + rest) == [c] + Unescape(rest)
  {
    var s := [c] + rest;
    assert s[0] == c;
    assert s[1..] == rest;
  }

  /** Decoding one escaped character gives the character back. */
  lemma UnescapeStep(c: char, rest: string)
    ensures Unescape(EscapeChar(c) + rest) == [c] + Unescape(rest)
  {
    if IsSpecial(c) {
      UnescapeEntity(EscapeChar(c), c, rest);
    } else {
      UnescapeOther(c, rest);
    }
  }

  /** Escaping loses nothing: decoding the entities gives the text back. */
  lemma {:induction false} UnescapeEscape(s: string)
    ensures Unescape(Escape(s)) == s
    decreases |s|
  {
    if s != [] {
      UnescapeEscape(s[1..]);
      UnescapeStep(s[0], Escape(s[1..]));
      assert s == [s[0]] + s[1..];
    }
  }

  // ---------------------------------------------------------------------
  // sanitize_html

  const Br: string := "<br/>"

  /** sanitize_html as written: the empty string for a falsy text, else
      the escaped text with every backslash-n pair, then every line feed,
      replaced by `<br/>`. */
  function SanitizeHtml(text: string): string
  {
    if text == "" then ""
    else Replace(Replace(Escape(text), "\\n", Br), "\n", Br)
  }

  /** The same output in one pass over the text: a backslash-n pair or a
      line feed becomes a break, every other character its escape. */
  function Rendered(t: string): string
    decreases |t|
  {
    if t == [] then []
    else if |t| >= 2 && t[0] == '\\' && t[1] == 'n' then Br + Rendered(t[2..])
    else if t[0] == '\n' then Br + Rendered(t[1..])
    else EscapeChar(t[0]) + Rendered(t[1..])
  }

  /** The state after the first replacement only. */
  function FirstPass(t: string): string
    decreases |t|
  {
    if t == [] then []
    else if |t| >= 2 && t[0] == '\\' && t[1] == 'n' then Br + FirstPass(t[2..])
    else EscapeChar(t[0]) + FirstPass(t[1..])
  }

  /** A prefix without the pattern's first character is copied through. */
  lemma {:induction false} ReplaceSkips(e: string, r: string, pat: string, rep: string)
    requires pat != [] && pat[0] !in e
    ensures Replace(e + r, pat, rep) == e + Replace(r, pat, rep)
    decreases |e|
  {
    if e != [] {
      var s := e + r;
      assert s[0] == e[0];
      if |s| < |pat| {
        assert |r| < |pat|;
      } else {
        assert s[..|pat|] != pat by { assert s[..|pat|][0] == e[0]; }
        assert s[1..] == e[1..] + r;
        ReplaceSkips(e[1..], r, pat, rep);
      }
    } else {
      assert e + r == r;
    }
  }

  lemma ReplaceAtStart(pat: string, r: string, rep: string)
    requires pat != []
    ensures Replace(pat + r, pat, rep) == rep + Replace(r, pat, rep)
  {
    assert (pat + r)[..|pat|] == pat;
    assert (pat + r)[|pat|..] == r;
  }

  /** A backslash not followed by `n` is copied through. */
  lemma BackslashAlone(x: string)
    requires x == [] || x[0] != 'n'
    ensures Replace("\\" + x, "\\n", Br) == "\\" + Replace(x, "\\n", Br)
  {
    var s := "\\" + x;
    if |s| >= 2 {
      assert s[..2] != "\\n" by { assert s[..2][1] == x[0]; }
      assert s[1..] == x;
    }
  }

  lemma EscapeBackslashN(t: string)
    requires |t| >= 2 && t[0] == '\\' && t[1] == 'n'
    ensures Escape(t) == "\\n" + Escape(t[2..])
  {
    assert Escape(t) == EscapeChar(t[0]) + Escape(t[1..]);
    assert Escape(t[1..]) == EscapeChar(t[1]) + Escape(t[2..]) by {
      assert t[1..][1..] == t[2..];
    }
    assert EscapeChar(t[0]) == [t[0]] && EscapeChar(t[1]) == [t[1]];
    ConsTwo(t[0], t[1], Escape(t[2..]));
  }

  lemma ConsTwo<T>(a: T, b: T, x: seq<T>)
    ensures [a] + ([b] + x) == [a, b] + x
  {
  }

  lemma EscapeBackslashAlone(t: string)
    requires t != [] && t[0] == '\\' && !(|t| >= 2 && t[1] == 'n')
    ensures Replace(Escape(t), "\\n", Br) == "\\" + Replace(Escape(t[1..]), "\\n", Br)
  {
    assert Escape(t) == "\\" + Escape(t[1..]);
    BackslashAlone(Escape(t[1..]));
  }

  /** The first replacement over the escaped text is the first pass. */
  lemma {:induction false} FirstPassIsReplace(t: string)
    ensures Replace(Escape(t), "\\n", Br) == FirstPass(t)
    decreases |t|
  {
    if t != [] {
      if |t| >= 2 && t[0] == '\\' && t[1] == 'n' {
        FirstPassIsReplace(t[2..]);
        EscapeBackslashN(t);
        ReplaceAtStart("\\n", Escape(t[2..]), Br);
      } else if t[0] == '\\' {
        FirstPassIsReplace(t[1..]);
        EscapeBackslashAlone(t);
      } else {
        FirstPassIsReplace(t[1..]);
        ReplaceSkips(EscapeChar(t[0]), Escape(t[1..]), "\\n", Br);
      }
    }
  }

  /** The second replacement over the first pass is the one-pass
      rendering. */
  lemma {:induction false} SecondPassIsReplace(t: string)
    ensures Replace(FirstPass(t), "\n", Br) == Rendered(t)
    decreases |t|
  {
    if t != [] {
      if |t| >= 2 && t[0] == '\\' && t[1] == 'n' {
        SecondPassIsReplace(t[2..]);
        ReplaceSkips(Br, FirstPass(t[2..]), "\n", Br);
      } else if t[0] == '\n' {
        SecondPassIsReplace(t[1..]);
        ReplaceAtStart("\n", FirstPass(t[1..]), Br);
      } else {
        SecondPassIsReplace(t[1..]);
        ReplaceSkips(EscapeChar(t[0]), FirstPass(t[1..]), "\n", Br);
      }
    }
  }

  /** Markup-free text in which every `<` opens an inserted `<br/>`: apart
      from those tags there is no `<`, `>`, quote or line feed. */
  predicate OnlyBreaks(s: string)
    decreases |s|
  {
    if s == [] then true
    else if s[0] == '<' then StartsWith(s, Br) && OnlyBreaks(s[5..])
    else s[0] != '>' && s[0] != '"' && s[0] != '\'' && s[0] != '\n' && OnlyBreaks(s[1..])
  }

  lemma {:induction false} OnlyBreaksPrefix(e: string, r: string)
    requires forall c :: c in e ==> c != '<' && c != '>' && c != '"' && c != '\'' && c != '\n'
    requires OnlyBreaks(r)
    ensures OnlyBreaks(e + r)
    decreases |e|
  {
    if e != [] {
      assert e[0] in e;
      assert forall c :: c in e[1..] ==> c in e;
      OnlyBreaksPrefix(e[1..], r);
      assert (e + r)[1..] == e[1..] + r;
    } else {
      assert e + r == r;
    }
  }

  lemma OnlyBreaksBr(r: string)
    requires OnlyBreaks(r)
    ensures OnlyBreaks(Br + r)
  {
    var s := Br + r;
    assert s[0] == '<';
    assert s[..5] == Br;
    assert s[5..] == r;
  }

  lemma {:induction false} RenderedOnlyBreaks(t: string)
    ensures OnlyBreaks(Rendered(t))
    decreases |t|
  {
    if t != [] {
      if |t| >= 2 && t[0] == '\\' && t[1] == 'n' {
        RenderedOnlyBreaks(t[2..]);
        OnlyBreaksBr(Rendered(t[2..]));
      } else if t[0] == '\n' {
        RenderedOnlyBreaks(t[1..]);
        OnlyBreaksBr(Rendered(t[1..]));
      } else {
        RenderedOnlyBreaks(t[1..]);
        OnlyBreaksPrefix(EscapeChar(t[0]), Rendered(t[1..]));
      }
    }
  }

  /** Such text holds no line feed and no quote. */
  lemma {:induction false} OnlyBreaksChars(s: string)
    requires OnlyBreaks(s)
    ensures forall c :: c in s ==> c != '\n' && c != '"' && c != '\''
    decreases |s|
  {
    if s != [] {
      if s[0] == '<' {
        OnlyBreaksChars(s[5..]);
        assert s == Br + s[5..];
      } else {
        OnlyBreaksChars(s[1..]);
        assert s == [s[0]] + s[1..];
      }
    }
  }

  /** The promises of sanitize_html: falsy text gives the empty string;
      otherwise the two replacements amount to the one-pass rendering,
      in which every `<` belongs to an inserted `<br/>` and no line feed
      or quote is left. */
  lemma SanitizeHtmlFacts(text: string)
    ensures text == "" ==> SanitizeHtml(text) == ""
    ensures text != "" ==> SanitizeHtml(text) == Rendered(text)
    ensures OnlyBreaks(SanitizeHtml(text))
    ensures forall c :: c in SanitizeHtml(text) ==> c != '\n' && c != '"' && c != '\''
  {
    if text != "" {
      FirstPassIsReplace(text);
      SecondPassIsReplace(text);
      RenderedOnlyBreaks(text);
    }
    OnlyBreaksChars(SanitizeHtml(text));
  }

  /** Text with no special character, no backslash and no line feed comes
      out unchanged. */
  lemma {:induction false} RenderedPlain(t: string)
    requires forall c :: c in t ==> !IsSpecial(c) && c != '\\' && c != '\n'
    ensures Rendered(t) == t
    decreases |t|
  {
    if t != [] {
      assert t[0] in t;
      assert forall c :: c in t[1..] ==> c in t;
      RenderedPlain(t[1..]);
      assert t == [t[0]] + t[1..];
    }
  }

  // ---------------------------------------------------------------------
  // sanitize_input

  /** sanitize_input: the empty string for a falsy text, else the control
      characters removed, Python's strip, and the cut to a truthy
      `max_length` (0 stands for None). */
  function SanitizeInput(text: string, maxLength: nat): (r: string)
    ensures text == "" ==> r == ""
  {
    if text == "" then "" else Cleaned(text, IsPySpace, maxLength)
  }

  lemma SanitizeInputFacts(text: string, maxLength: nat)
    ensures forall k :: 0 <= k < |SanitizeInput(text, maxLength)| ==> !IsControl(SanitizeInput(text, maxLength)[k])
    ensures SanitizeInput(text, maxLength) != "" ==> !IsPySpace(SanitizeInput(text, maxLength)[0])
    ensures maxLength > 0 ==> |SanitizeInput(text, maxLength)| <= maxLength
    ensures |PyStrip(RemoveChars(text, IsControl))| <= maxLength || maxLength == 0 ==>
      (SanitizeInput(text, maxLength) == PyStrip(RemoveChars(text, IsControl))
       && (SanitizeInput(text, maxLength) != "" ==> !IsPySpace(SanitizeInput(text, maxLength)[|SanitizeInput(text, maxLength)| - 1])))
  {
    if text == "" {
      assert RemoveChars(text, IsControl) == "";
    } else {
      CleanedFacts(text, IsPySpace, maxLength);
    }
  }

  // ---------------------------------------------------------------------
  // validate_file_upload

  /** The parts of an uploaded file the check reads. */
  datatype Upload = Upload(size: int, contentType: string, name: string)

  const DefaultAllowedTypes: seq<string> := ["image/jpeg", "image/jpg", "image/png", "image/gif", "image/webp"]

  const SizeMessage: string := "File size exceeds maximum allowed size of "
  const MismatchMessage: string := "File extension does not match file content type"

  function Last(parts: seq<string>): string
    requires parts != []
  {
    parts[|parts| - 1]
  }

  /** The text after the last dot, lowercased, or the empty string for a
      name without a dot. */
  function Extension(name: string): string
  {
    if '.' in name then Lower(Last(Split(name, '.'))) else ""
  }

  /** The extension table, `ext_to_mime`. */
  function ExtensionMime(ext: string): Option<string>
  {
    if ext == "jpg" || ext == "jpeg" then Some("image/jpeg")
    else if ext == "png" then Some("image/png")
    else if ext == "gif" then Some("image/gif")
    else if ext == "webp" then Some("image/webp")
    else None
  }

  /** Whether the extension table contradicts the declared type. */
  predicate Mismatch(file: Upload)
  {
    var m := ExtensionMime(Extension(file.name));
    m.Some? && m.value != file.contentType
  }

  function AllowedOr(allowedTypes: Option<seq<string>>): seq<string>
  {
    if allowedTypes.None? then DefaultAllowedTypes else allowedTypes.value
  }

  /** validate_file_upload: (valid, error message). An explicit list of
      allowed types, even an empty one, replaces the default. */
  function ValidateFileUpload(file: Upload, allowedTypes: Option<seq<string>>, maxSizeMb: int): (r: (bool, Option<string>))
    ensures r.0 <==> r.1 == None
  {
    var allowed := AllowedOr(allowedTypes);
    if file.size > maxSizeMb * 1024 * 1024 then
      (false, Some(SizeMessage + IntToString(maxSizeMb) + "MB"))
    else if file.contentType !in allowed then
      (false, Some("File type " + file.contentType + " is not allowed"))
    else if Mismatch(file) then
      (false, Some(MismatchMessage))
    else
      (true, None)
  }

  /** The checks run in order and the first failure is reported. */
  lemma ValidateOrder(file: Upload, allowedTypes: Option<seq<string>>, maxSizeMb: int)
    ensures file.size > maxSizeMb * 1048576 ==>
      ValidateFileUpload(file, allowedTypes, maxSizeMb) == (false, Some(SizeMessage + IntToString(maxSizeMb) + "MB"))
    ensures file.size <= maxSizeMb * 1048576 && file.contentType !in AllowedOr(allowedTypes) ==>
      ValidateFileUpload(file, allowedTypes, maxSizeMb) == (false, Some("File type " + file.contentType + " is not allowed"))
    ensures file.size <= maxSizeMb * 1048576 && file.contentType in AllowedOr(allowedTypes) && Mismatch(file) ==>
      ValidateFileUpload(file, allowedTypes, maxSizeMb) == (false, Some(MismatchMessage))
    ensures ValidateFileUpload(file, allowedTypes, maxSizeMb).0 <==>
      (file.size <= maxSizeMb * 1048576 && file.contentType in AllowedOr(allowedTypes) && !Mismatch(file))
  {
  }

  /** An explicit empty list rejects every file within the size limit. */
  lemma EmptyListRejects(file: Upload, maxSizeMb: int)
    ensures !ValidateFileUpload(file, Some([]), maxSizeMb).0
  {
  }

  lemma {:induction false} SplitSingle(s: string, sep: char)
    requires sep !in s
    ensures Split(s, sep) == [s]
  {
    assert |Before(s, sep)| == |s| by { BeforeStops(s, sep); }
  }

  /** The last piece of a split is what follows the last separator. */
  lemma {:induction false} LastPiece(s: string, sep: char) returns (i: nat)
    requires sep in s
    ensures i < |s| && s[i] == sep && sep !in s[i + 1..]
    ensures Last(Split(s, sep)) == s[i + 1..]
    decreases |s|
  {
    var head := Before(s, sep);
    BeforeStops(s, sep);
    var rest := s[|head| + 1..];
    if sep in rest {
      var j := LastPiece(rest, sep);
      i := |head| + 1 + j;
      assert s[i + 1..] == rest[j + 1..];
    } else {
      SplitSingle(rest, sep);
      i := |head|;
    }
  }

  /** The extension is the lowercased text after the last dot. */
  lemma ExtensionAfterLastDot(name: string)
    ensures '.' !in name ==> Extension(name) == ""
    ensures '.' in name ==>
      (exists i :: 0 <= i < |name| && name[i] == '.' && '.' !in name[i + 1..] && Extension(name) == Lower(name[i + 1..]))
  {
    if '.' in name {
      var i := LastPiece(name, '.');
      assert name[i] == '.' && '.' !in name[i + 1..] && Extension(name) == Lower(name[i + 1..]);
    }
  }

  /** An extension outside the table never fails the mismatch check: a
      file of an allowed type within the size limit is accepted. */
  lemma UnknownExtensionPasses(file: Upload, allowedTypes: Option<seq<string>>, maxSizeMb: int)
    requires ExtensionMime(Extension(file.name)) == None
    requires file.size <= maxSizeMb * 1048576 && file.contentType in AllowedOr(allowedTypes)
    ensures ValidateFileUpload(file, allowedTypes, maxSizeMb) == (true, None)
  {
  }

  /** The default list allows 'image/jpg', but the table sends both jpg
      and jpeg to 'image/jpeg': an 'image/jpg' file is accepted only when
      its extension is outside the table. */
  lemma JpgAliasNeedsOtherExtension(file: Upload, maxSizeMb: int)
    requires file.contentType == "image/jpg"
    requires file.size <= maxSizeMb * 1048576
    ensures ValidateFileUpload(file, None, maxSizeMb).0 <==> ExtensionMime(Extension(file.name)) == None
  {
    assert file.contentType in DefaultAllowedTypes;
  }

  /** A name made of a stem, one dot and a dot-free suffix has that
      suffix, lowercased, as its extension. */
  lemma ExtensionOfStem(stem: string, ext: string)
    requires '.' !in ext
    ensures Extension(stem + "." + ext) == Lower(ext)
  {
    var s := stem + "." + ext;
    assert s[|stem|] == '.';
    var i := LastPiece(s, '.');
    assert s[|stem| + 1..] == ext;
  }

  lemma JpgLower()
    ensures Lower("jpg") == "jpg"
  {
  }

  lemma PhotoJpgExtension()
    ensures Extension("photo.jpg") == "jpg"
  {
    assert "photo.jpg" == "photo" + "." + "jpg";
    ExtensionOfStem("photo", "jpg");
    JpgLower();
  }

  /** So a small "photo.jpg" declared as 'image/jpg' is rejected as a
      mismatch under the default list. */
  lemma JpgAliasRejected()
    ensures ValidateFileUpload(Upload(1024, "image/jpg", "photo.jpg"), None, 10) == (false, Some(MismatchMessage))
  {
    PhotoJpgExtension();
    assert "image/jpg" in DefaultAllowedTypes;
  }

  /** The type the extension table would name for a declared type: the
      alias 'image/jpg', which the default list allows, is the type
      'image/jpeg'. */
  function CanonicalType(contentType: string): string
  {
    if contentType == "image/jpg" then "image/jpeg" else contentType
  }

  /** validate_file_upload with the extension check comparing canonical
      types, so that every type the default list allows can pass it. */
  function ValidateFileUploadCorrected(file: Upload, allowedTypes: Option<seq<string>>, maxSizeMb: int): (r: (bool, Option<string>))
    ensures r.0 <==> r.1 == None
  {
    var allowed := AllowedOr(allowedTypes);
    var m := ExtensionMime(Extension(file.name));
    if file.size > maxSizeMb * 1024 * 1024 then
      (false, Some(SizeMessage + IntToString(maxSizeMb) + "MB"))
    else if file.contentType !in allowed then
      (false, Some("File type " + file.contentType + " is not allowed"))
    else if m.Some? && m.value != CanonicalType(file.contentType) then
      (false, Some(MismatchMessage))
    else
      (true, None)
  }

  /** The correction changes nothing for any other declared type. */
  lemma CorrectedAgrees(file: Upload, allowedTypes: Option<seq<string>>, maxSizeMb: int)
    requires file.contentType != "image/jpg"
    ensures ValidateFileUploadCorrected(file, allowedTypes, maxSizeMb) == ValidateFileUpload(file, allowedTypes, maxSizeMb)
  {
  }

  /** Corrected, a small 'image/jpg' file passes with a ".jpg" or ".jpeg"
      extension, or one outside the table. */
  lemma CorrectedAliasIff(file: Upload, maxSizeMb: int)
    requires file.contentType == "image/jpg"
    requires file.size <= maxSizeMb * 1048576
    ensures ValidateFileUploadCorrected(file, None, maxSizeMb).0 <==>
      (ExtensionMime(Extension(file.name)) == None || ExtensionMime(Extension(file.name)) == Some("image/jpeg"))
  {
    assert file.contentType in DefaultAllowedTypes;
  }

  lemma JpgAliasAccepted()
    ensures ValidateFileUploadCorrected(Upload(1024, "image/jpg", "photo.jpg"), None, 10) == (true, None)
  {
    PhotoJpgExtension();
    assert "image/jpg" in DefaultAllowedTypes;
  }
}
