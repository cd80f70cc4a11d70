/** Image URL rewriting (src/utils/ImageOptimizer.js): local image paths
    get their query replaced by the optimiser's parameters, and a
    responsive source set is built from a list of breakpoints. Widths,
    heights and qualities are integers; an absent option is `None`. */
module Image {
  import opened Wrappers
  import opened Strs

  // ---------------------------------------------------------------------
  // application/x-www-form-urlencoded, as URLSearchParams writes values

  /** The characters written as they are. */
  predicate Unreserved(c: char)
  {
    ('a' <= c <= 'z') || ('A' <= c <= 'Z') || ('0' <= c <= '9') || c == '*' || c == '-' || c == '.' || c == '_'
  }

  function HexDigit(d: nat): (c: char)
    requires d < 16
    ensures IsHex(c) && HexValue(c) == d
  {
    if d < 10 then ('0' as int + d) as char else ('A' as int + d - 10) as char
  }

  predicate IsHex(c: char)
  {
    ('0' <= c <= '9') || ('A' <= c <= 'F') || ('a' <= c <= 'f')
  }

  function HexValue(c: char): (d: nat)
    requires IsHex(c)
    ensures d < 16
  {
    if '0' <= c <= '9' then c as int - '0' as int
    else if 'A' <= c <= 'F' then c as int - 'A' as int + 10
    else c as int - 'a' as int + 10
  }

  /** `%XY` for one byte, upper-case hexadecimal. */
  function Percent(b: nat): (r: string)
    requires b < 256
    ensures |r| == 3 && r[0] == '%' && IsHex(r[1]) && IsHex(r[2])
    ensures HexValue(r[1]) * 16 + HexValue(r[2]) == b
  {
    ['%', HexDigit(b / 16), HexDigit(b % 16)]
  }

  /** The UTF-8 bytes of a character. */
  function Utf8(c: char): (bytes: seq<nat>)
    ensures 1 <= |bytes| <= 4
    ensures forall k :: 0 <= k < |bytes| ==> bytes[k] < 256
    ensures c as int < 0x80 ==> bytes == [c as int]
  {
    var n := c as int;
    if n < 0x80 then [n]
    else if n < 0x800 then [0xC0 + n / 0x40, 0x80 + n % 0x40]
    else if n < 0x10000 then [0xE0 + n / 0x1000, 0x80 + (n / 0x40) % 0x40, 0x80 + n % 0x40]
    else [0xF0 + n / 0x40000, 0x80 + (n / 0x1000) % 0x40, 0x80 + (n / 0x40) % 0x40, 0x80 + n % 0x40]
  }

  function PercentAll(bytes: seq<nat>): (r: string)
    requires forall k :: 0 <= k < |bytes| ==> bytes[k] < 256
    ensures forall c :: c in r ==> c == '%' || IsHex(c)
    decreases |bytes|
  {
    if bytes == [] then [] else Percent(bytes[0]) + PercentAll(bytes[1..])
  }

  function EncodeChar(c: char): (r: string)
    ensures forall d :: d in r ==> Unreserved(d) || d == '+' || d == '%'
  {
    if Unreserved(c) then [c]
    else if c == ' ' then "+"
    else PercentAll(Utf8(c))
  }

  /** A value as URLSearchParams serialises it. */
  function FormEncode(s: string): string
    decreases |s|
  {
    if s == [] then [] else EncodeChar(s[0]) + FormEncode(s[1..])
  }

  /** An encoded value holds only unreserved characters, `+` and `%`: no
      `?`, `&` or `=` that could be confused with the URL's structure. */
  lemma {:induction false} FormEncodeChars(s: string)
    ensures forall d :: d in FormEncode(s) ==> Unreserved(d) || d == '+' || d == '%'
    decreases |s|
  {
    if s != [] {
      FormEncodeChars(s[1..]);
      assert FormEncode(s) == EncodeChar(s[0]) + FormEncode(s[1..]);
    }
  }

  /** A value of unreserved characters is written as it is. */
  lemma {:induction false} FormEncodePlain(s: string)
    requires forall c :: c in s ==> Unreserved(c)
    ensures FormEncode(s) == s
    decreases |s|
  {
    if s != [] {
      assert s[0] in s;
      assert forall c :: c in s[1..] ==> c in s;
      FormEncodePlain(s[1..]);
      assert FormEncode(s) == EncodeChar(s[0]) + FormEncode(s[1..]);
      assert EncodeChar(s[0]) == [s[0]];
      assert s == [s[0]] + s[1..];
    }
  }

  /** The reader of the same format. */
  function FormDecode(s: string): string
    decreases |s|
  {
    if s == [] then []
    else if s[0] == '+' then " " + FormDecode(s[1..])
    else if s[0] == '%' && |s| >= 3 && IsHex(s[1]) && IsHex(s[2]) then
      [(HexValue(s[1]) * 16 + HexValue(s[2])) as char] + FormDecode(s[3..])
    else [s[0]] + FormDecode(s[1..])
  }

  lemma DecodeStep(c: char, rest: string)
    requires c as int < 0x80
    ensures FormDecode(EncodeChar(c) + rest) == [c] + FormDecode(rest)
  {
    var s := EncodeChar(c) + rest;
    if Unreserved(c) {
      assert s[0] == c && s[1..] == rest;
    } else if c == ' ' {
      assert s[0] == '+' && s[1..] == rest;
    } else {
      var p := Percent(c as int);
      assert EncodeChar(c) == p + [] by {
        assert Utf8(c) == [c as int];
        assert PercentAll([c as int]) == p + PercentAll([]);
      }
      assert s[..3] == p && s[3..] == rest;
      assert (HexValue(p[1]) * 16 + HexValue(p[2])) as char == c;
    }
  }

  /** On ASCII text the encoding loses nothing. */
  lemma {:induction false} FormRoundTrip(s: string)
    requires forall c :: c in s ==> c as int < 0x80
    ensures FormDecode(FormEncode(s)) == s
    decreases |s|
  {
    if s != [] {
      assert s[0] in s;
      assert forall c :: c in s[1..] ==> c in s;
      FormRoundTrip(s[1..]);
      DecodeStep(s[0], FormEncode(s[1..]));
      assert s == [s[0]] + s[1..];
    }
  }

  // ---------------------------------------------------------------------
  // optimizeImageSrc

  datatype ImageOptions = ImageOptions(width: Option<int>, height: Option<int>, quality: Option<int>, format: Option<string>)

  const NoOptions: ImageOptions := ImageOptions(None, None, None, None)

  /** A present, non-zero number. */
  predicate TruthyNumber(o: Option<int>)
  {
    o.Some? && o.value != 0
  }

  function Param(name: string, value: string): string
  {
    name + "=" + FormEncode(value)
  }

  /** The parameters in the order they are appended: w and h only when
      truthy, then q (default 80) and f (default 'auto'). */
  function Params(o: ImageOptions): seq<string>
  {
    (if TruthyNumber(o.width) then [Param("w", IntToString(o.width.value))] else [])
    + (if TruthyNumber(o.height) then [Param("h", IntToString(o.height.value))] else [])
    + [Param("q", IntToString(if o.quality.Some? then o.quality.value else 80))]
    + [Param("f", if o.format.Some? then o.format.value else "auto")]
  }

  /** optimizeImageSrc: an external URL as it is; otherwise the path up
      to its first `?`, then `?` and the parameters joined by `&` (there
      are always at least two). */
  function OptimizeImageSrc(src: string, o: ImageOptions): string
  {
    if StartsWith(src, "http") then src
    else Split(src, '?')[0] + "?" + Join(Params(o), "&")
  }

  /** The query the optimiser writes. */
  function Query(o: ImageOptions): string
  {
    Join(Params(o), "&")
  }

  lemma {:induction false} JoinNoChar(parts: seq<string>, sep: string, c: char)
    requires c !in sep
    requires forall k :: 0 <= k < |parts| ==> c !in parts[k]
    ensures c !in Join(parts, sep)
    decreases |parts|
  {
    if |parts| > 1 {
      JoinNoChar(parts[1..], sep, c);
    }
  }

  lemma ParamNoQuestion(name: string, value: string)
    requires '?' !in name
    ensures '?' !in Param(name, value)
  {
    FormEncodeChars(value);
  }

  /** The query holds no `?`. */
  lemma QueryNoQuestion(o: ImageOptions)
    ensures '?' !in Query(o)
  {
    var ps := Params(o);
    if TruthyNumber(o.width) { ParamNoQuestion("w", IntToString(o.width.value)); }
    if TruthyNumber(o.height) { ParamNoQuestion("h", IntToString(o.height.value)); }
    ParamNoQuestion("q", IntToString(if o.quality.Some? then o.quality.value else 80));
    ParamNoQuestion("f", if o.format.Some? then o.format.value else "auto");
    JoinNoChar(ps, "&", '?');
  }

  /** A local path loses its old query: the result is the path before its
      first `?`, one `?`, and the query, which has no `?` of its own. */
  lemma OptimizeLocal(src: string, o: ImageOptions)
    requires !StartsWith(src, "http")
    ensures OptimizeImageSrc(src, o) == Before(src, '?') + "?" + Query(o)
    ensures '?' !in Before(src, '?') && '?' !in Query(o)
    ensures |Params(o)| == 2 + (if TruthyNumber(o.width) then 1 else 0) + (if TruthyNumber(o.height) then 1 else 0)
  {
    assert Split(src, '?')[0] == Before(src, '?');
    QueryNoQuestion(o);
  }

  /** An external URL is returned as it is. */
  lemma OptimizeExternal(src: string, o: ImageOptions)
    requires StartsWith(src, "http")
    ensures OptimizeImageSrc(src, o) == src
  {
  }

  lemma BeforeOfJoined(base: string, q: string)
    requires '?' !in base
    ensures Before(base + "?" + q, '?') == base
    decreases |base|
  {
    if base != [] {
      assert (base + "?" + q)[1..] == base[1..] + "?" + q;
      assert base[0] in base;
      assert forall c :: c in base[1..] ==> c in base;
      BeforeOfJoined(base[1..], q);
    }
  }

  /** Rewriting a rewritten path with the same options changes nothing. */
  lemma OptimizeIdempotent(src: string, o: ImageOptions)
    ensures OptimizeImageSrc(OptimizeImageSrc(src, o), o) == OptimizeImageSrc(src, o)
  {
    if !StartsWith(src, "http") {
      OptimizeLocal(src, o);
      var base := Before(src, '?');
      var r := base + "?" + Query(o);
      assert !StartsWith(r, "http") by {
        if |base| >= 4 {
          assert r[..4] == src[..4];
        } else if |r| >= 4 {
          assert r[..4][|base|] == '?';
        }
      }
      BeforeOfJoined(base, Query(o));
      OptimizeLocal(r, o);
    }
  }

  lemma DefaultLiterals()
    ensures IntToString(80) == "80"
    ensures FormEncode("80") == "80" && FormEncode("auto") == "auto"
  {
    FormEncodePlain("80");
    FormEncodePlain("auto");
  }

  /** Without options a local path gets exactly `?q=80&f=auto`. */
  lemma OptimizeDefaults(src: string)
    requires !StartsWith(src, "http")
    ensures OptimizeImageSrc(src, NoOptions) == Before(src, '?') + "?" + "q=80&f=auto"
  {
    OptimizeLocal(src, NoOptions);
    QueryDefault();
  }

  lemma QueryDefault()
    ensures Query(NoOptions) == "q=80&f=auto"
  {
    ParamsDefault();
    var ps := ["q=80", "f=auto"];
    assert ps[1..] == ["f=auto"];
    assert Join(ps, "&") == "q=80" + "&" + "f=auto";
    DefaultQueryText();
  }

  lemma DefaultQueryText()
    ensures "q=80" + "&" + "f=auto" == "q=80&f=auto"
  {
  }

  lemma ParamsDefault()
    ensures Params(NoOptions) == ["q=80", "f=auto"]
  {
    DefaultLiterals();
    assert Param("q", IntToString(80)) == "q=80";
    assert Param("f", "auto") == "f=auto";
  }

  // ---------------------------------------------------------------------
  // generateResponsiveSources

  datatype Source = Source(srcSet: string, media: string)

  const DefaultBreakpoints: seq<int> := [320, 768, 1024, 1200]

  /** The source for a breakpoint, given the optimised path. */
  function SourceOf(path: string, width: int): Source
  {
    Source(path + " " + IntToString(width) + "w", "(max-width: " + IntToString(width) + "px)")
  }

  function SourceFor(baseSrc: string, width: int): Source
  {
    SourceOf(OptimizeImageSrc(baseSrc, ImageOptions(Some(width), None, None, None)), width)
  }

  function SourcesFor(baseSrc: string, widths: seq<int>): (r: seq<Source>)
    ensures |r| == |widths|
    decreases |widths|
  {
    if widths == [] then [] else [SourceFor(baseSrc, widths[0])] + SourcesFor(baseSrc, widths[1..])
  }

  /** generateResponsiveSources: one source per breakpoint, the default
      list when none is given. */
  function GenerateResponsiveSources(baseSrc: string, breakpoints: Option<seq<int>>): (r: seq<Source>)
    ensures |r| == if breakpoints.Some? then |breakpoints.value| else 4
  {
    SourcesFor(baseSrc, if breakpoints.Some? then breakpoints.value else DefaultBreakpoints)
  }

  lemma {:induction false} SourcesForAt(baseSrc: string, widths: seq<int>)
    ensures forall i :: 0 <= i < |widths| ==> SourcesFor(baseSrc, widths)[i] == SourceFor(baseSrc, widths[i])
    decreases |widths|
  {
    if widths != [] {
      SourcesForAt(baseSrc, widths[1..]);
      forall i | 0 < i < |widths| ensures SourcesFor(baseSrc, widths)[i] == SourceFor(baseSrc, widths[i]) {
        assert SourcesFor(baseSrc, widths)[i] == SourcesFor(baseSrc, widths[1..])[i - 1];
        assert widths[1..][i - 1] == widths[i];
      }
    }
  }

  /** The source for a breakpoint N: media `(max-width: Npx)`, and the
      optimised path followed by ` Nw`. */
  lemma SourceShape(path: string, width: int)
    ensures SourceOf(path, width).media == "(max-width: " + IntToString(width) + "px)"
    ensures EndsWith(SourceOf(path, width).srcSet, " " + IntToString(width) + "w")
    ensures StartsWith(SourceOf(path, width).srcSet, path)
  {
    ConcatEnds(path, " " + IntToString(width) + "w");
  }

  lemma ConcatEnds(a: string, b: string)
    ensures StartsWith(a + b, a) && EndsWith(a + b, b)
  {
    assert (a + b)[|a + b| - |b|..] == b;
    assert (a + b)[..|a|] == a;
  }

  /** One source per breakpoint, in the breakpoints' order. */
  lemma ResponsiveSourcesInOrder(baseSrc: string, breakpoints: Option<seq<int>>)
    ensures var widths := if breakpoints.Some? then breakpoints.value else DefaultBreakpoints;
      forall i :: 0 <= i < |widths| ==> GenerateResponsiveSources(baseSrc, breakpoints)[i] == SourceFor(baseSrc, widths[i])
  {
    var widths := if breakpoints.Some? then breakpoints.value else DefaultBreakpoints;
    SourcesForAt(baseSrc, widths);
  }
}
