/** Web-vitals scoring (src/utils/PerformanceMonitor.js): each metric is
    scored 100, 75 or 50 against two thresholds, the overall score is the
    mean of the five scores and is graded A to F, resource URLs are
    classified by their extension, and the stored metrics keep only the
    hundred most recently inserted names. Metric values are exact reals. */
module Perf {
  import opened Wrappers
  import opened Strs

  // ---------------------------------------------------------------------
  // Threshold scores

  /** 100 at or below `good`, 75 at or below `poor`, else 50. */
  function ThresholdScore(value: real, good: real, poor: real): (r: int)
    ensures r == 100 || r == 75 || r == 50
  {
    if value <= good then 100 else if value <= poor then 75 else 50
  }

  /** A score never rises as the value grows, whenever the thresholds are
      in order. */
  lemma ThresholdMonotone(v: real, w: real, good: real, poor: real)
    requires good <= poor && v <= w
    ensures ThresholdScore(w, good, poor) <= ThresholdScore(v, good, poor)
  {
  }

  /** The score is 100 exactly up to the first threshold, 75 exactly
      between the two, and 50 exactly beyond the second. */
  lemma ThresholdBands(v: real, good: real, poor: real)
    requires good <= poor
    ensures ThresholdScore(v, good, poor) == 100 <==> v <= good
    ensures ThresholdScore(v, good, poor) == 75 <==> good < v <= poor
    ensures ThresholdScore(v, good, poor) == 50 <==> poor < v
  {
  }

  function LcpScore(value: real): int { ThresholdScore(value, 2500.0, 4000.0) }
  function FidScore(value: real): int { ThresholdScore(value, 100.0, 300.0) }
  function ClsScore(value: real): int { ThresholdScore(value, 0.1, 0.25) }
  function FcpScore(value: real): int { ThresholdScore(value, 1800.0, 3000.0) }
  function TtfbScore(value: real): int { ThresholdScore(value, 800.0, 1800.0) }

  /** Each of the five metric scores is non-increasing in its value. */
  lemma MetricScoresMonotone(v: real, w: real)
    requires v <= w
    ensures LcpScore(w) <= LcpScore(v) && FidScore(w) <= FidScore(v) && ClsScore(w) <= ClsScore(v)
    ensures FcpScore(w) <= FcpScore(v) && TtfbScore(w) <= TtfbScore(v)
  {
    ThresholdMonotone(v, w, 2500.0, 4000.0);
    ThresholdMonotone(v, w, 100.0, 300.0);
    ThresholdMonotone(v, w, 0.1, 0.25);
    ThresholdMonotone(v, w, 1800.0, 3000.0);
    ThresholdMonotone(v, w, 800.0, 1800.0);
  }

  /** The boundary values themselves still score the better band. */
  lemma MetricBoundaries()
    ensures LcpScore(2500.0) == 100 && LcpScore(4000.0) == 75 && LcpScore(4000.5) == 50
    ensures FidScore(100.0) == 100 && FidScore(300.0) == 75 && FidScore(301.0) == 50
    ensures ClsScore(0.1) == 100 && ClsScore(0.25) == 75 && ClsScore(0.26) == 50
    ensures FcpScore(1800.0) == 100 && FcpScore(3000.0) == 75 && FcpScore(3001.0) == 50
    ensures TtfbScore(800.0) == 100 && TtfbScore(1800.0) == 75 && TtfbScore(1801.0) == 50
  {
  }

  // ---------------------------------------------------------------------
  // Grade

  /** getGrade. */
  function Grade(score: real): (g: char)
    ensures g in "ABCDF"
  {
    if score >= 90.0 then 'A'
    else if score >= 80.0 then 'B'
    else if score >= 70.0 then 'C'
    else if score >= 60.0 then 'D'
    else 'F'
  }

  /** The grades from worst (0) to best (4). */
  function Rank(g: char): nat
  {
    if g == 'A' then 4 else if g == 'B' then 3 else if g == 'C' then 2 else if g == 'D' then 1 else 0
  }

  /** A higher score never gets a worse grade. */
  lemma GradeMonotone(s: real, t: real)
    requires s <= t
    ensures Rank(Grade(s)) <= Rank(Grade(t))
  {
  }

  /** Each grade covers a band ten points wide, F everything below 60. */
  lemma GradeBands(s: real)
    ensures Grade(s) == 'A' <==> 90.0 <= s
    ensures Grade(s) == 'B' <==> 80.0 <= s < 90.0
    ensures Grade(s) == 'C' <==> 70.0 <= s < 80.0
    ensures Grade(s) == 'D' <==> 60.0 <= s < 70.0
    ensures Grade(s) == 'F' <==> s < 60.0
  {
  }

  // ---------------------------------------------------------------------
  // getPerformanceScore

  /** The latest value of each observed metric; `None` when the metric
      has not been observed. */
  datatype Vitals = Vitals(lcp: Option<real>, fid: Option<real>, cls: Option<real>, fcp: Option<real>, ttfb: Option<real>)

  const NoVitals: Vitals := Vitals(None, None, None, None, None)

  /** `metric?.value || 0`: an absent metric reads as 0. */
  function ValueOr0(m: Option<real>): real
  {
    if m.Some? then m.value else 0.0
  }

  datatype Scores = Scores(lcp: int, fid: int, cls: int, fcp: int, ttfb: int)

  datatype PerformanceScore = PerformanceScore(individual: Scores, overall: int, grade: char)

  function IndividualScores(v: Vitals): Scores
  {
    Scores(LcpScore(ValueOr0(v.lcp)), FidScore(ValueOr0(v.fid)), ClsScore(ValueOr0(v.cls)),
      FcpScore(ValueOr0(v.fcp)), TtfbScore(ValueOr0(v.ttfb)))
  }

  function Sum(s: Scores): int
  {
    s.lcp + s.fid + s.cls + s.fcp + s.ttfb
  }

  /** `Math.round`: the nearest integer, halves rounded up. */
  function Round(x: real): int
  {
    (x + 0.5).Floor
  }

  /** getPerformanceScore: the five scores, the rounded mean, and the grade
      of the mean before rounding. */
  function GetPerformanceScore(v: Vitals): PerformanceScore
  {
    var s := IndividualScores(v);
    var mean := Sum(s) as real / 5.0;
    PerformanceScore(s, Round(mean), Grade(mean))
  }

  /** One of the three possible scores. */
  predicate Band(x: int)
  {
    x == 50 || x == 75 || x == 100
  }

  /** The steps above 50 a score of 50, 75 or 100 stands for. */
  function Steps(x: int): int
  {
    if x == 50 then 0 else if x == 75 then 1 else 2
  }

  /** Five scores of 50, 75 or 100 add up to 250 plus a multiple of 25,
      at most 500. */
  lemma SumOfScores(s: Scores) returns (m: nat)
    requires Band(s.lcp) && Band(s.fid) && Band(s.cls) && Band(s.fcp) && Band(s.ttfb)
    ensures m <= 10 && Sum(s) == 250 + 25 * m
  {
    m := Steps(s.lcp) + Steps(s.fid) + Steps(s.cls) + Steps(s.fcp) + Steps(s.ttfb);
  }

  /** Five such scores have a whole mean, a multiple of 5 between 50 and
      100. */
  lemma WholeMean(s: Scores) returns (q: int)
    requires Band(s.lcp) && Band(s.fid) && Band(s.cls) && Band(s.fcp) && Band(s.ttfb)
    ensures Sum(s) as real / 5.0 == q as real
    ensures 50 <= q <= 100 && q % 5 == 0
  {
    var m := SumOfScores(s);
    q := 50 + 5 * m;
    assert Sum(s) == 5 * q;
    FifthOfMultiple(q);
    MultipleOfFive(10 + m);
  }

  lemma FifthOfMultiple(q: int)
    ensures (5 * q) as real / 5.0 == q as real
  {
  }

  lemma MultipleOfFive(k: int)
    ensures (5 * k) % 5 == 0
  {
  }

  lemma RoundWhole(q: int)
    ensures Round(q as real) == q
  {
  }

  /** The mean is always a whole multiple of 5 between 50 and 100, so the
      rounding changes nothing and the grade is the grade of the reported
      overall score. */
  lemma OverallScoreBounds(v: Vitals)
    ensures 50 <= GetPerformanceScore(v).overall <= 100
    ensures GetPerformanceScore(v).overall % 5 == 0
    ensures GetPerformanceScore(v).overall as real == Sum(IndividualScores(v)) as real / 5.0
    ensures GetPerformanceScore(v).grade == Grade(GetPerformanceScore(v).overall as real)
  {
    var q := WholeMean(IndividualScores(v));
    RoundWhole(q);
  }

  /** With no metric observed every value reads as 0, every score is 100,
      and the grade is A. */
  lemma NothingObservedScoresFull()
    ensures GetPerformanceScore(NoVitals) == PerformanceScore(Scores(100, 100, 100, 100, 100), 100, 'A')
  {
    assert Sum(IndividualScores(NoVitals)) as real / 5.0 == 100.0;
  }

  /** The overall score falls or stays when any one metric gets worse. */
  lemma OverallMonotone(v: Vitals, w: Vitals)
    requires ValueOr0(v.lcp) <= ValueOr0(w.lcp) && ValueOr0(v.fid) <= ValueOr0(w.fid)
    requires ValueOr0(v.cls) <= ValueOr0(w.cls) && ValueOr0(v.fcp) <= ValueOr0(w.fcp)
    requires ValueOr0(v.ttfb) <= ValueOr0(w.ttfb)
    ensures GetPerformanceScore(w).overall <= GetPerformanceScore(v).overall
    ensures Rank(GetPerformanceScore(w).grade) <= Rank(GetPerformanceScore(v).grade)
  {
    MetricScoresMonotone(ValueOr0(v.lcp), ValueOr0(w.lcp));
    MetricScoresMonotone(ValueOr0(v.fid), ValueOr0(w.fid));
    MetricScoresMonotone(ValueOr0(v.cls), ValueOr0(w.cls));
    MetricScoresMonotone(ValueOr0(v.fcp), ValueOr0(w.fcp));
    MetricScoresMonotone(ValueOr0(v.ttfb), ValueOr0(w.ttfb));
    OverallScoreBounds(v);
    OverallScoreBounds(w);
    GradeMonotone(GetPerformanceScore(w).overall as real, GetPerformanceScore(v).overall as real);
  }

  // ---------------------------------------------------------------------
  // getResourceType

  datatype ResourceKind = Stylesheet | Script | ImageFile | Font | OtherResource

  /** The regular expression `\.(jpg|jpeg|png|gif|webp|svg)$` with the `i`
      flag: the URL ends in one of the extensions, in any letter case. */
  predicate ImageExtension(url: string)
  {
    var u := Lower(url);
    EndsWith(u, ".jpg") || EndsWith(u, ".jpeg") || EndsWith(u, ".png")
    || EndsWith(u, ".gif") || EndsWith(u, ".webp") || EndsWith(u, ".svg")
  }

  /** getResourceType: the first test that holds decides. */
  function ResourceType(url: string): ResourceKind
  {
    if Contains(url, ".css") then Stylesheet
    else if Contains(url, ".js") then Script
    else if ImageExtension(url) then ImageFile
    else if Contains(url, ".woff") || Contains(url, ".ttf") then Font
    else OtherResource
  }

  /** Every substring of the URL's substring is one of the URL's. */
  lemma ContainsWithin(url: string, longer: string, shorter: string)
    requires Contains(url, longer) && Contains(longer, shorter)
    ensures Contains(url, shorter)
  {
    ContainsTrans(url, longer, shorter);
  }

  lemma JsonHasJs()
    ensures Contains(".json", ".js")
  {
    assert OccursAt(".json", ".js", 0);
  }

  /** A URL naming a `.json` file counts as a script unless it also
      mentions `.css`. */
  lemma JsonCountsAsScript(url: string)
    requires Contains(url, ".json") && !Contains(url, ".css")
    ensures ResourceType(url) == Script
  {
    JsonHasJs();
    ContainsWithin(url, ".json", ".js");
  }

  lemma WoffTwoHasWoff()
    ensures Contains(".woff2", ".woff")
  {
    assert OccursAt(".woff2", ".woff", 0);
  }

  /** A `.woff2` font is a font whenever no earlier test claims it. */
  lemma WoffTwoIsFont(url: string)
    requires Contains(url, ".woff2") && !Contains(url, ".css") && !Contains(url, ".js") && !ImageExtension(url)
    ensures ResourceType(url) == Font
  {
    WoffTwoHasWoff();
    ContainsWithin(url, ".woff2", ".woff");
  }

  /** The image test ignores letter case: a URL and its lower-case form
      agree on it. */
  lemma ImageExtensionIgnoresCase(url: string)
    ensures ImageExtension(url) <==> ImageExtension(Lower(url))
  {
    LowerTwice(url);
  }

  lemma LowerTwice(s: string)
    ensures Lower(Lower(s)) == Lower(s)
  {
  }

  /** The tests are applied in order: a stylesheet test wins over a script
      test, and so on down the list, so exactly one kind is chosen and it
      is the first that applies. */
  lemma ResourceTypeFirstMatch(url: string)
    ensures ResourceType(url) == Stylesheet <==> Contains(url, ".css")
    ensures ResourceType(url) == Script <==> !Contains(url, ".css") && Contains(url, ".js")
    ensures ResourceType(url) == ImageFile <==> !Contains(url, ".css") && !Contains(url, ".js") && ImageExtension(url)
    ensures ResourceType(url) == Font <==>
      !Contains(url, ".css") && !Contains(url, ".js") && !ImageExtension(url) && (Contains(url, ".woff") || Contains(url, ".ttf"))
  {
  }

  // ---------------------------------------------------------------------
  // storeMetric

  const StorageKey := "ccb_performance_metrics"
  const MaxRecords := 100

  /** A stored record: the metric's own fields with `recordedAt` set. */
  type Record = map<string, real>

  function Stamped(data: Record, now: real): (r: Record)
    ensures "recordedAt" in r && r["recordedAt"] == now
    ensures forall f :: f in data && f != "recordedAt" ==> f in r && r[f] == data[f]
    ensures r.Keys == data.Keys + {"recordedAt"}
  {
    data["recordedAt" := now]
  }

  /** The key order after `metrics[name] = …`: an existing key keeps its
      place, a new one goes last. */
  function Inserted(keys: seq<string>, name: string): (r: seq<string>)
    ensures name in r
    ensures name in keys ==> r == keys
  {
    if name in keys then keys else keys + [name]
  }

  /** The keys kept: the last hundred. */
  function Kept(keys: seq<string>): (r: seq<string>)
    ensures |r| <= MaxRecords
    ensures |keys| <= MaxRecords ==> r == keys
  {
    if |keys| > MaxRecords then keys[|keys| - MaxRecords..] else keys
  }

  predicate Distinct<T(==)>(s: seq<T>)
  {
    forall i, j :: 0 <= i < j < |s| ==> s[i] != s[j]
  }

  /** The two halves of a sequence without repetitions share no element. */
  lemma DistinctHalves<T>(a: seq<T>, b: seq<T>)
    requires Distinct(a + b)
    ensures forall x :: x in b ==> x !in a
    ensures Distinct(b)
  {
    forall x | x in b ensures x !in a {
      var j :| 0 <= j < |b| && b[j] == x;
      if i :| 0 <= i < |a| && a[i] == x {
        assert (a + b)[i] == x && (a + b)[|a| + j] == x;
      }
    }
    forall i, j | 0 <= i < j < |b| ensures b[i] != b[j] {
      assert (a + b)[|a| + i] == b[i] && (a + b)[|a| + j] == b[j];
    }
  }

  /** Appending a new element keeps a sequence without repetitions. */
  lemma DistinctSnoc<T>(a: seq<T>, x: T)
    requires Distinct(a) && x !in a
    ensures Distinct(a + [x])
  {
  }

  /** The keys dropped from the front. */
  function Dropped(keys: seq<string>): seq<string>
  {
    if |keys| > MaxRecords then keys[..|keys| - MaxRecords] else []
  }

  lemma KeptAndDropped(keys: seq<string>)
    ensures Dropped(keys) + Kept(keys) == keys
  {
  }

  /** The key order after storing `name`. */
  function StoredKeys(keys: seq<string>, name: string): seq<string>
  {
    Kept(Inserted(keys, name))
  }

  /** Storing keeps the keys distinct, at most a hundred of them, and the
      stored name among them when there were at most a hundred before. */
  lemma StoredKeysFacts(keys: seq<string>, name: string)
    requires Distinct(keys)
    ensures Distinct(Inserted(keys, name))
    ensures Distinct(StoredKeys(keys, name))
    ensures |StoredKeys(keys, name)| <= MaxRecords
    ensures |keys| <= MaxRecords ==> name in StoredKeys(keys, name)
    ensures |keys| < MaxRecords ==> StoredKeys(keys, name) == Inserted(keys, name)
  {
    var ins := Inserted(keys, name);
    if name !in keys {
      DistinctSnoc(keys, name);
    }
    KeptAndDropped(ins);
    DistinctHalves(Dropped(ins), Kept(ins));
    if |ins| > MaxRecords && |keys| <= MaxRecords {
      assert Kept(ins)[|Kept(ins)| - 1] == name;
    }
  }

  /** When a hundred distinct names are stored and a new one arrives, the
      earliest one is the one dropped and the new one goes last. */
  lemma FullStoreDropsEarliest(keys: seq<string>, name: string)
    requires Distinct(keys) && |keys| == MaxRecords && name !in keys
    ensures StoredKeys(keys, name) == keys[1..] + [name]
    ensures keys[0] !in StoredKeys(keys, name)
  {
    assert (keys + [name])[1..] == keys[1..] + [name];
    assert keys[0] !in keys[1..];
  }

  /** The stored metrics, as the dictionary under `StorageKey` holds them
      between calls: the keys in insertion order and the records. */
  class MetricStore {
    var keys: seq<string>
    var records: map<string, Record>

    /** The keys are distinct, name exactly the stored records, and there
        are at most a hundred of them. */
    ghost predicate Valid()
      reads this
    {
      Distinct(keys) && (forall k :: k in records <==> k in keys) && |keys| <= MaxRecords
    }

    /** An empty store (nothing saved yet). */
    constructor ()
      ensures Valid() && keys == [] && records == map[]
    {
      keys := [];
      records := map[];
    }

    /** storeMetric: write the stamped record under the name, then delete
        the earliest keys beyond the last hundred. */
    method StoreMetric(name: string, data: Record, now: real)
      requires Valid()
      modifies this
      ensures Valid()
      ensures keys == StoredKeys(old(keys), name)
      ensures name in records && records[name] == Stamped(data, now)
      ensures forall k :: k in records && k != name ==> k in old(records) && records[k] == old(records)[k]
    {
      StoredKeysFacts(keys, name);
      var metrics := records[name := Stamped(data, now)];
      var names := Inserted(keys, name);
      ghost var full := metrics;
      var drop := Dropped(names);
      var i := 0;
      while i < |drop|
        invariant 0 <= i <= |drop|
        invariant forall k :: k in metrics <==> k in full && k !in drop[..i]
        invariant forall k :: k in metrics ==> metrics[k] == full[k]
      {
        assert drop[..i + 1] == drop[..i] + [drop[i]];
        metrics := metrics - {drop[i]};
        i := i + 1;
      }
      assert drop[..i] == drop;
      KeptOrDropped(names);
      keys := Kept(names);
      records := metrics;
    }
  }

  /** In a sequence without repetitions an element is kept exactly when it
      is not dropped. */
  lemma KeptOrDropped(keys: seq<string>)
    requires Distinct(keys)
    ensures forall k :: k in Kept(keys) <==> k in keys && k !in Dropped(keys)
  {
    KeptAndDropped(keys);
    DistinctHalves(Dropped(keys), Kept(keys));
  }
}
