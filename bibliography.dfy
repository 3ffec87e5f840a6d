/** `bib_sort`: the bibliography's two-level ordering. Every document index is
    sorted by a major comparator, the sorted indices are cut into runs wherever
    the major heading changes, and each run is sorted by a minor comparator. */
module Bibliography {
  import opened Js
  import opened Strings
  import opened Numerals
  import opened Order
  import opened Corpus
  import opened Sorting

  /** The `major` preference: group by decade, by year, or by author initial. */
  datatype MajorStrategy = ByDecade | ByYear | ByAlpha

  /** The `minor` preference: order within a group by date or by sort key. */
  datatype MinorStrategy = ByDate | ByName

  /** A heading: a year is a number, a decade or an initial is a string. */
  datatype Heading = Number(n: int) | Label(s: string)

  /** `{headings, docs}`: headings paired with runs of document indices. */
  datatype Ordering = Ordering(headings: seq<Heading>, docs: seq<seq<nat>>)

  function ParseMajor(name: string): MajorStrategy
  {
    if name == "decade" then ByDecade else if name == "year" then ByYear else ByAlpha
  }

  function ParseMinor(name: string): MinorStrategy
  {
    if name == "date" then ByDate else ByName
  }

  /** The console line logged for a major name that is not one of the three. */
  function MajorLog(name: string): seq<string>
  {
    if name == "decade" || name == "year" || name == "alpha" then []
    else ["Unknown bib_sort: " + name + "; defaulting to alpha"]
  }

  /** The console line logged for a minor name that is neither "date" nor "alpha". */
  function MinorLog(name: string): seq<string>
  {
    if name == "date" || name == "alpha" then []
    else ["Unknown bib_sort: " + name + "; defaulting to alpha"]
  }

  /** An unknown major name behaves as "alpha" and only adds a log line. */
  lemma UnknownMajorIsAlpha(name: string)
    requires name != "decade" && name != "year"
    ensures ParseMajor(name) == ParseMajor("alpha") == ByAlpha
    ensures MajorLog(name) == if name == "alpha" then [] else ["Unknown bib_sort: " + name + "; defaulting to alpha"]
  {
  }

  /** An unknown minor name behaves as "alpha" and only adds a log line. */
  lemma UnknownMinorIsAlpha(name: string)
    requires name != "date"
    ensures ParseMinor(name) == ParseMinor("alpha") == ByName
    ensures MinorLog(name) == if name == "alpha" then [] else ["Unknown bib_sort: " + name + "; defaulting to alpha"]
  {
  }

  function MajorComparator(major: MajorStrategy): Comparator
  {
    if major == ByAlpha then Alphabetical else Chronological
  }

  function MinorComparator(minor: MinorStrategy): Comparator
  {
    if minor == ByDate then Chronological else Alphabetical
  }

  /** `d3.range(n)`. */
  function Range(n: nat): seq<nat>
  {
    if n == 0 then [] else Range(n - 1) + [n - 1]
  }

  /** `d3.range(n)` holds every index below n exactly once. */
  lemma {:induction false} RangeOnce(n: nat)
    ensures |Range(n)| == n && InRange(Range(n), n)
    ensures forall i: nat :: multiset(Range(n))[i] == if i < n then 1 else 0
  {
    if n > 0 {
      RangeOnce(n - 1);
    }
  }

  /** `major_split`: the heading a document falls under. */
  function MajorSplit(d: Doc, major: MajorStrategy): Heading
    requires major == ByAlpha ==> SortKey(d.authors).Returns?
  {
    match major
    case ByDecade => Label(IntToString(d.year / 10) + "0s")
    case ByYear => Number(d.year)
    case ByAlpha => Label(SortKey(d.authors).value)
  }

  /** The quantity a heading stands for: the decade number, the year, or the
      sort key. Headings are ordered by it. */
  function Level(d: Doc, major: MajorStrategy): Key
    requires major == ByAlpha ==> SortKey(d.authors).Returns?
  {
    match major
    case ByDecade => Time(d.year / 10)
    case ByYear => Time(d.year)
    case ByAlpha => Name(SortKey(d.authors).value)
  }

  /** Two documents share a heading exactly when they share its level. */
  lemma {:induction false} SplitMatchesLevel(a: Doc, b: Doc, major: MajorStrategy)
    requires major == ByAlpha ==> SortKey(a.authors).Returns? && SortKey(b.authors).Returns?
    ensures MajorSplit(a, major) == MajorSplit(b, major) <==> Level(a, major) == Level(b, major)
  {
    if major == ByDecade && MajorSplit(a, major) == MajorSplit(b, major) {
      var x, y := IntToString(a.year / 10), IntToString(b.year / 10);
      assert x + "0s" == y + "0s";
      assert x == (x + "0s")[..|x|] && y == (y + "0s")[..|y|];
      IntToStringInjective(a.year / 10, b.year / 10);
    }
  }

  /** The level never decreases along the major comparator. */
  lemma {:induction false} LevelMonotone(a: Doc, b: Doc, major: MajorStrategy)
    requires major == ByAlpha ==> SortKey(a.authors).Returns? && SortKey(b.authors).Returns?
    requires a.stamp <= b.stamp ==> a.year <= b.year
    requires KeyLe(Rank(a, MajorComparator(major)), Rank(b, MajorComparator(major)))
    ensures KeyLe(Level(a, major), Level(b, major))
  {
    if major == ByDecade {
      DivideMonotone(a.year, b.year);
    }
  }

  lemma DivideMonotone(x: int, y: int)
    requires x <= y
    ensures x / 10 <= y / 10
  {
  }

  /** Where group k of the scan ends: the next group's start, or `end`. */
  function GroupEnd(starts: seq<nat>, k: nat, end: nat): nat
    requires k < |starts|
  {
    if k + 1 < |starts| then starts[k + 1] else end
  }

  /** Group starts: 0 first, strictly increasing, all below `end`. */
  predicate Starts(starts: seq<nat>, end: nat)
  {
    && (end == 0 <==> starts == [])
    && (starts != [] ==> starts[0] == 0)
    && (forall j, k :: 0 <= j < k < |starts| ==> starts[j] < starts[k])
    && (forall k :: 0 <= k < |starts| ==> starts[k] < end)
  }

  /** The heading of every document, index by index. */
  function Heads(corpus: seq<Doc>, major: MajorStrategy): (r: seq<Heading>)
    requires Keyed(corpus, MajorComparator(major))
    ensures |r| == |corpus| && forall i :: 0 <= i < |corpus| ==> r[i] == MajorSplit(corpus[i], major)
  {
    seq(|corpus|, i requires 0 <= i < |corpus| => MajorSplit(corpus[i], major))
  }

  /** Every position of group k of `docs` has heading `headings[k]`, and
      neighbouring headings differ. */
  predicate Grouped(heads: seq<Heading>, docs: seq<nat>, starts: seq<nat>, end: nat, headings: seq<Heading>)
    requires InRange(docs, |heads|)
    requires end <= |docs| && |starts| == |headings|
  {
    && (forall k, p {:trigger GroupEnd(starts, k, end), docs[p]} ::
          0 <= k < |starts| && starts[k] <= p < GroupEnd(starts, k, end) && p < end ==>
          heads[docs[p]] == headings[k])
    && (forall k :: 0 < k < |headings| ==> headings[k - 1] != headings[k])
  }

  /** Documents of an earlier group have a strictly smaller level than those of a later one. */
  lemma {:induction false} GroupsAscend(corpus: seq<Doc>, major: MajorStrategy, docs: seq<nat>, starts: seq<nat>, headings: seq<Heading>,
                     k1: nat, k2: nat, p: nat, q: nat)
    requires YearFollowsDate(corpus) && Keyed(corpus, MajorComparator(major))
    requires InRange(docs, |corpus|) && SortedBy(docs, Ranks(corpus, MajorComparator(major)))
    requires Starts(starts, |docs|) && |starts| == |headings|
    requires Grouped(Heads(corpus, major), docs, starts, |docs|, headings)
    requires k1 < k2 < |starts|
    requires starts[k1] <= p < GroupEnd(starts, k1, |docs|)
    requires starts[k2] <= q < GroupEnd(starts, k2, |docs|)
    ensures KeyLt(Level(corpus[docs[p]], major), Level(corpus[docs[q]], major))
  {
    var cmp := MajorComparator(major);
    var b := starts[k1 + 1];
    assert GroupEnd(starts, k1 + 1, |docs|) > b;
    var dp, dl, db, dq := corpus[docs[p]], corpus[docs[b - 1]], corpus[docs[b]], corpus[docs[q]];
    // p and b - 1 share group k1, b opens group k1 + 1
    assert MajorSplit(dp, major) == headings[k1] == MajorSplit(dl, major);
    assert MajorSplit(db, major) == headings[k1 + 1];
    SplitMatchesLevel(dp, dl, major);
    SplitMatchesLevel(dl, db, major);
    LevelMonotone(dl, db, major);
    if b < q {
      LevelMonotone(db, dq, major);
      KeyLeTransitive(Level(dl, major), Level(db, major), Level(dq, major));
      if Level(dl, major) == Level(dq, major) {
        KeyLeAntisymmetric(Level(db, major), Level(dq, major));
      }
    }
  }

  /** The concatenation of the runs. */
  function Flatten(runs: seq<seq<nat>>): seq<nat>
  {
    if runs == [] then [] else Flatten(runs[..|runs| - 1]) + runs[|runs| - 1]
  }

  /** Flattening after one more run. */
  lemma {:induction false} FlattenSnoc(runs: seq<seq<nat>>, run: seq<nat>)
    ensures Flatten(runs + [run]) == Flatten(runs) + run
  {
    assert (runs + [run])[..|runs|] == runs;
  }

  /** Every index below n appears exactly once across the runs. */
  ghost predicate EachOnce(runs: seq<seq<nat>>, n: nat)
  {
    forall i: nat :: multiset(Flatten(runs))[i] == if i < n then 1 else 0
  }

  /** Every member of run k is a document whose heading is `headings[k]`. */
  predicate UnderHeadings(corpus: seq<Doc>, major: MajorStrategy, headings: seq<Heading>, runs: seq<seq<nat>>)
    requires Keyed(corpus, MajorComparator(major))
  {
    forall k, x {:trigger x in runs[k]} :: 0 <= k < |runs| && x in runs[k] ==>
      k < |headings| && x < |corpus| && MajorSplit(corpus[x], major) == headings[k]
  }

  /** Every member of an earlier run has a strictly lower level (decade, year
      or initial) than every member of a later run. */
  predicate Ascending(corpus: seq<Doc>, major: MajorStrategy, runs: seq<seq<nat>>)
    requires Keyed(corpus, MajorComparator(major))
  {
    forall j, k, x, y {:trigger x in runs[j], y in runs[k]} ::
      0 <= j < k < |runs| && x in runs[j] && y in runs[k] ==>
        x < |corpus| && y < |corpus| && KeyLt(Level(corpus[x], major), Level(corpus[y], major))
  }

  /** No heading occurs twice. */
  predicate Distinct(headings: seq<Heading>)
  {
    forall j, k :: 0 <= j < k < |headings| ==> headings[j] != headings[k]
  }

  /** Every run is sorted by the comparator. */
  predicate RunsSorted(ranks: seq<Key>, runs: seq<seq<nat>>)
  {
    forall k :: 0 <= k < |runs| ==> InRange(runs[k], |ranks|) && SortedBy(runs[k], ranks)
  }

  /** `run` is the slice `docs[lo..hi]` sorted by the comparator. */
  predicate RunOf(ranks: seq<Key>, docs: seq<nat>, lo: nat, hi: nat, run: seq<nat>)
  {
    && lo <= hi <= |docs|
    && InRange(run, |ranks|) && SortedBy(run, ranks)
    && multiset(run) == multiset(docs[lo..hi])
  }

  /** The runs are cut from the major-sorted documents at the group starts. */
  predicate CutAt(docs: seq<nat>, starts: seq<nat>, runs: seq<seq<nat>>)
    requires Starts(starts, |docs|) && |runs| == |starts|
  {
    forall k {:trigger runs[k]} :: 0 <= k < |starts| ==>
      multiset(runs[k]) == multiset(docs[starts[k]..GroupEnd(starts, k, |docs|)])
  }

  /** A member of a run sits in the run's group of the major-sorted documents. */
  lemma {:induction false} MemberPosition(x: nat, run: seq<nat>, docs: seq<nat>, lo: nat, hi: nat)
    requires lo <= hi <= |docs| && multiset(run) == multiset(docs[lo..hi]) && x in run
    ensures exists p :: lo <= p < hi && docs[p] == x
  {
    assert x in multiset(docs[lo..hi]);
    var j :| 0 <= j < hi - lo && docs[lo..hi][j] == x;
    assert docs[lo + j] == x;
  }

  /** Each member of run k has heading k. */
  lemma {:induction false} RunsUnderHeadings(corpus: seq<Doc>, major: MajorStrategy, docs: seq<nat>, starts: seq<nat>, headings: seq<Heading>, runs: seq<seq<nat>>)
    requires Keyed(corpus, MajorComparator(major)) && InRange(docs, |corpus|)
    requires Starts(starts, |docs|) && |starts| == |headings| == |runs|
    requires Grouped(Heads(corpus, major), docs, starts, |docs|, headings)
    requires CutAt(docs, starts, runs)
    ensures UnderHeadings(corpus, major, headings, runs)
  {
    forall k, x {:trigger x in runs[k]} | 0 <= k < |runs| && x in runs[k]
      ensures x < |corpus| && MajorSplit(corpus[x], major) == headings[k]
    {
      var lo, hi := starts[k], GroupEnd(starts, k, |docs|);
      assert multiset(runs[k]) == multiset(docs[lo..hi]);
      MemberUnderHeading(corpus, major, docs, starts, headings, runs[k], k, x);
    }
  }

  lemma {:induction false} MemberUnderHeading(corpus: seq<Doc>, major: MajorStrategy, docs: seq<nat>, starts: seq<nat>, headings: seq<Heading>, run: seq<nat>, k: nat, x: nat)
    requires Keyed(corpus, MajorComparator(major)) && InRange(docs, |corpus|)
    requires Starts(starts, |docs|) && |starts| == |headings|
    requires Grouped(Heads(corpus, major), docs, starts, |docs|, headings)
    requires k < |starts| && multiset(run) == multiset(docs[starts[k]..GroupEnd(starts, k, |docs|)])
    requires x in run
    ensures x < |corpus| && MajorSplit(corpus[x], major) == headings[k]
  {
    var lo, hi := starts[k], GroupEnd(starts, k, |docs|);
    MemberPosition(x, run, docs, lo, hi);
    var p :| lo <= p < hi && docs[p] == x;
    InGroup(corpus, major, docs, starts, headings, k, p);
  }

  /** A position of group k has heading k. */
  lemma {:induction false} InGroup(corpus: seq<Doc>, major: MajorStrategy, docs: seq<nat>, starts: seq<nat>, headings: seq<Heading>, k: nat, p: nat)
    requires Keyed(corpus, MajorComparator(major)) && InRange(docs, |corpus|)
    requires Starts(starts, |docs|) && |starts| == |headings|
    requires Grouped(Heads(corpus, major), docs, starts, |docs|, headings)
    requires k < |starts| && starts[k] <= p < GroupEnd(starts, k, |docs|)
    ensures MajorSplit(corpus[docs[p]], major) == headings[k]
  {
  }

  /** Earlier runs hold strictly lower levels than later ones. */
  lemma {:induction false} RunsAscend(corpus: seq<Doc>, major: MajorStrategy, docs: seq<nat>, starts: seq<nat>, headings: seq<Heading>, runs: seq<seq<nat>>)
    requires YearFollowsDate(corpus) && Keyed(corpus, MajorComparator(major))
    requires InRange(docs, |corpus|) && SortedBy(docs, Ranks(corpus, MajorComparator(major)))
    requires Starts(starts, |docs|) && |starts| == |headings| == |runs|
    requires Grouped(Heads(corpus, major), docs, starts, |docs|, headings)
    requires CutAt(docs, starts, runs)
    ensures Ascending(corpus, major, runs)
  {
    var n := |docs|;
    forall j, k, x, y {:trigger x in runs[j], y in runs[k]} | 0 <= j < k < |runs| && x in runs[j] && y in runs[k]
      ensures x < |corpus| && y < |corpus| && KeyLt(Level(corpus[x], major), Level(corpus[y], major))
    {
      MemberPosition(x, runs[j], docs, starts[j], GroupEnd(starts, j, n));
      MemberPosition(y, runs[k], docs, starts[k], GroupEnd(starts, k, n));
      var p :| starts[j] <= p < GroupEnd(starts, j, n) && docs[p] == x;
      var q :| starts[k] <= q < GroupEnd(starts, k, n) && docs[q] == y;
      GroupsAscend(corpus, major, docs, starts, headings, j, k, p, q);
    }
  }

  /** The headings of a grouped, major-sorted sequence are pairwise distinct. */
  lemma {:induction false} HeadingsDistinct(corpus: seq<Doc>, major: MajorStrategy, docs: seq<nat>, starts: seq<nat>, headings: seq<Heading>)
    requires YearFollowsDate(corpus) && Keyed(corpus, MajorComparator(major))
    requires InRange(docs, |corpus|) && SortedBy(docs, Ranks(corpus, MajorComparator(major)))
    requires Starts(starts, |docs|) && |starts| == |headings|
    requires Grouped(Heads(corpus, major), docs, starts, |docs|, headings)
    ensures Distinct(headings)
  {
    var n := |docs|;
    forall j, k | 0 <= j < k < |headings|
      ensures headings[j] != headings[k]
    {
      var p, q := starts[j], starts[k];
      assert GroupEnd(starts, j, n) > p && GroupEnd(starts, k, n) > q;
      GroupsAscend(corpus, major, docs, starts, headings, j, k, p, q);
      SplitMatchesLevel(corpus[docs[p]], corpus[docs[q]], major);
    }
  }

  /** Extending the scan by a position whose heading is the current one. */
  lemma {:induction false} GroupedGrow(heads: seq<Heading>, docs: seq<nat>, starts: seq<nat>, i: nat, headings: seq<Heading>)
    requires InRange(docs, |heads|)
    requires i < |docs| && |starts| == |headings| && Starts(starts, i) && starts != []
    requires Grouped(heads, docs, starts, i, headings)
    requires heads[docs[i]] == Last(headings)
    ensures Starts(starts, i + 1) && Grouped(heads, docs, starts, i + 1, headings)
  {
    forall k, p {:trigger GroupEnd(starts, k, i + 1), docs[p]}
      | 0 <= k < |starts| && starts[k] <= p < GroupEnd(starts, k, i + 1) && p < i + 1
      ensures heads[docs[p]] == headings[k]
    {
      if p < i {
        assert GroupEnd(starts, k, i) > p;
      } else {
        assert k == |starts| - 1;
      }
    }
  }

  /** Extending the scan by a position that opens a new group. */
  lemma {:induction false} GroupedOpen(heads: seq<Heading>, docs: seq<nat>, starts: seq<nat>, i: nat, headings: seq<Heading>)
    requires InRange(docs, |heads|)
    requires i < |docs| && |starts| == |headings| && Starts(starts, i)
    requires Grouped(heads, docs, starts, i, headings)
    requires headings != [] ==> heads[docs[i]] != Last(headings)
    ensures Starts(starts + [i], i + 1) && Grouped(heads, docs, starts + [i], i + 1, headings + [heads[docs[i]]])
  {
    var starts', headings' := starts + [i], headings + [heads[docs[i]]];
    forall k, p {:trigger GroupEnd(starts', k, i + 1), docs[p]}
      | 0 <= k < |starts'| && starts'[k] <= p < GroupEnd(starts', k, i + 1) && p < i + 1
      ensures heads[docs[p]] == headings'[k]
    {
      if k < |starts| {
        assert GroupEnd(starts', k, i + 1) == GroupEnd(starts, k, i);
      }
    }
  }

  /** The scan of `bib_sort`: a heading and a boundary wherever the heading of
      the next major-sorted document differs from the current one. `heads`
      holds each document's `major_split`. */
  method ScanHeadings(heads: seq<Heading>, docs: seq<nat>) returns (headings: seq<Heading>, partition: seq<nat>)
    requires InRange(docs, |heads|)
    ensures |partition| == |headings| && Starts(partition, |docs|)
    ensures Grouped(heads, docs, partition, |docs|, headings)
  {
    headings, partition := [], [];
    var cur: Option<Heading> := None;
    var i := 0;
    while i < |docs|
      invariant 0 <= i <= |docs|
      invariant |partition| == |headings| && Starts(partition, i)
      invariant cur == if headings == [] then None else Some(Last(headings))
      invariant Grouped(heads, docs, partition, i, headings)
    {
      var key := heads[docs[i]];
      if cur != Some(key) {
        GroupedOpen(heads, docs, partition, i, headings);
        partition := partition + [i];
        headings := headings + [key];
        cur := Some(key);
      } else {
        GroupedGrow(heads, docs, partition, i, headings);
      }
      i := i + 1;
    }
  }

  /** Position where run k begins in the major-sorted documents, given the
      run ends `bounds`. */
  function RunStart(bounds: seq<nat>, k: nat): nat
    requires k < |bounds|
  {
    if k == 0 then 0 else bounds[k - 1]
  }

  /** Run ends that can cut `docs`: ascending, up to its length. */
  predicate Cuttable(bounds: seq<nat>, n: nat)
  {
    && (forall j, k :: 0 <= j < k < |bounds| ==> bounds[j] <= bounds[k])
    && (forall k :: 0 <= k < |bounds| ==> bounds[k] <= n)
  }

  /** A prefix is the shorter prefix followed by the slice between them. */
  lemma PrefixSplit(s: seq<nat>, lo: nat, hi: nat)
    requires lo <= hi <= |s|
    ensures multiset(s[..hi]) == multiset(s[..lo]) + multiset(s[lo..hi])
  {
    assert s[..hi] == s[..lo] + s[lo..hi];
  }

  /** The run ends after `partition.shift()` and `partition.push(n)`: the
      leading 0 dropped (an empty partition stays empty) and n appended. */
  function Bounds(partition: seq<nat>, n: nat): (r: seq<nat>)
    ensures |r| == if partition == [] then 1 else |partition|
    ensures Last(r) == n && forall k :: 0 <= k < |r| - 1 ==> r[k] == partition[k + 1]
  {
    (if partition == [] then [] else partition[1..]) + [n]
  }

  /** Over a non-empty scan, run k of the shifted partition spans group k. */
  lemma {:induction false} ShiftedBounds(starts: seq<nat>, n: nat)
    requires Starts(starts, n) && n > 0
    ensures var bounds := Bounds(starts, n);
      && |bounds| == |starts| && Cuttable(bounds, n)
      && forall k {:trigger RunStart(bounds, k)} :: 0 <= k < |bounds| ==>
           RunStart(bounds, k) == starts[k] && bounds[k] == GroupEnd(starts, k, n)
  {
    var bounds := Bounds(starts, n);
    forall k | 0 <= k < |bounds|
      ensures RunStart(bounds, k) == starts[k] && bounds[k] == GroupEnd(starts, k, n)
    {
      if k > 0 {
        assert bounds[k - 1] == starts[k];
      }
    }
  }

  /** The run ends of an empty or a non-empty scan can cut the documents. */
  lemma {:induction false} BoundsCuttable(partition: seq<nat>, n: nat)
    requires Starts(partition, n)
    ensures Cuttable(Bounds(partition, n), n)
  {
    if n > 0 {
      ShiftedBounds(partition, n);
    } else {
      assert Bounds(partition, n) == [0];
    }
  }

  /** One more sorted slice keeps the runs a cut of the documents' prefix. */
  lemma {:induction false} ExtendRuns(ranks: seq<Key>, docs: seq<nat>, bounds: seq<nat>, runs: seq<seq<nat>>, run: seq<nat>)
    requires Cuttable(bounds, |docs|) && |runs| < |bounds|
    requires multiset(Flatten(runs)) == multiset(docs[..RunStart(bounds, |runs|)])
    requires forall k {:trigger runs[k]} :: 0 <= k < |runs| ==>
      RunOf(ranks, docs, RunStart(bounds, k), bounds[k], runs[k])
    requires InRange(run, |ranks|) && SortedBy(run, ranks)
    requires multiset(run) == multiset(docs[RunStart(bounds, |runs|)..bounds[|runs|]])
    ensures multiset(Flatten(runs + [run])) == multiset(docs[..bounds[|runs|]])
    ensures forall k {:trigger (runs + [run])[k]} :: 0 <= k < |runs| + 1 ==>
      RunOf(ranks, docs, RunStart(bounds, k), bounds[k], (runs + [run])[k])
  {
    var i := |runs|;
    FlattenSnoc(runs, run);
    PrefixSplit(docs, RunStart(bounds, i), bounds[i]);
    assert RunOf(ranks, docs, RunStart(bounds, i), bounds[i], run);
  }

  /** The tail of `bib_sort`: drop the partition's leading 0, add the end, and
      cut the major-sorted documents into minor-sorted runs there. */
  method CutRuns(ranks: seq<Key>, docs: seq<nat>, partition: seq<nat>) returns (runs: seq<seq<nat>>)
    requires InRange(docs, |ranks|) && Starts(partition, |docs|)
    ensures |runs| == |Bounds(partition, |docs|)|
    ensures multiset(Flatten(runs)) == multiset(docs)
    ensures forall k {:trigger runs[k]} :: 0 <= k < |runs| ==>
      RunOf(ranks, docs, RunStart(Bounds(partition, |docs|), k), Bounds(partition, |docs|)[k], runs[k])
  {
    var bounds := partition;
    if |bounds| > 0 {
      bounds := bounds[1..];
    }
    bounds := bounds + [|docs|];
    assert bounds == Bounds(partition, |docs|);
    BoundsCuttable(partition, |docs|);
    runs := SliceRuns(ranks, docs, bounds);
  }

  /** The loop of `bib_sort` that slices the major-sorted documents at the run
      ends and sorts every slice by the minor comparator. */
  method SliceRuns(ranks: seq<Key>, docs: seq<nat>, bounds: seq<nat>) returns (runs: seq<seq<nat>>)
    requires InRange(docs, |ranks|) && Cuttable(bounds, |docs|) && bounds != [] && Last(bounds) == |docs|
    ensures |runs| == |bounds|
    ensures multiset(Flatten(runs)) == multiset(docs)
    ensures forall k {:trigger runs[k]} :: 0 <= k < |runs| ==> RunOf(ranks, docs, RunStart(bounds, k), bounds[k], runs[k])
  {
    runs := [];
    var last := 0;
    var i := 0;
    while i < |bounds|
      invariant 0 <= i <= |bounds|
      invariant |runs| == i
      invariant last == if i == 0 then 0 else bounds[i - 1]
      invariant multiset(Flatten(runs)) == multiset(docs[..last])
      invariant forall k {:trigger runs[k]} :: 0 <= k < i ==> RunOf(ranks, docs, RunStart(bounds, k), bounds[k], runs[k])
    {
      var run := SortBy(docs[last..bounds[i]], ranks);
      ExtendRuns(ranks, docs, bounds, runs, run);
      runs := runs + [run];
      last := bounds[i];
      i := i + 1;
    }
    assert docs[..last] == docs;
  }

  /** Runs cut at the shifted group starts are the groups, each re-sorted, and
      none of them is empty. */
  lemma {:induction false} RunsAreGroups(ranks: seq<Key>, docs: seq<nat>, starts: seq<nat>, runs: seq<seq<nat>>)
    requires |docs| > 0 && Starts(starts, |docs|) && |runs| == |Bounds(starts, |docs|)|
    requires forall k {:trigger runs[k]} :: 0 <= k < |runs| ==>
      RunOf(ranks, docs, RunStart(Bounds(starts, |docs|), k), Bounds(starts, |docs|)[k], runs[k])
    ensures |runs| == |starts| && CutAt(docs, starts, runs) && RunsSorted(ranks, runs)
    ensures forall k :: 0 <= k < |runs| ==> runs[k] != []
  {
    var n := |docs|;
    var bounds := Bounds(starts, n);
    ShiftedBounds(starts, n);
    forall k | 0 <= k < |runs|
      ensures multiset(runs[k]) == multiset(docs[starts[k]..GroupEnd(starts, k, n)])
      ensures runs[k] != []
    {
      assert RunStart(bounds, k) == starts[k] && bounds[k] == GroupEnd(starts, k, n);
      assert GroupEnd(starts, k, n) > starts[k];
      assert docs[starts[k]] in multiset(docs[starts[k]..GroupEnd(starts, k, n)]);
    }
  }

  /** `d3.range(n).sort(cmp)`: every document index, in ascending order of the
      major comparator. */
  method MajorOrder(ranks: seq<Key>) returns (docs: seq<nat>)
    ensures |docs| == |ranks| && multiset(docs) == multiset(Range(|ranks|))
    ensures InRange(docs, |ranks|) && SortedBy(docs, ranks)
  {
    RangeOnce(|ranks|);
    docs := SortBy(Range(|ranks|), ranks);
    assert |docs| == |ranks| by {
      assert |multiset(docs)| == |multiset(Range(|ranks|))|;
    }
  }

  /** What the runs cut at the shifted group starts amount to: one non-empty
      run per heading, every member under its heading, levels ascending from
      run to run, distinct headings, and every run in minor order. */
  lemma {:induction false} CutOrdering(corpus: seq<Doc>, majorBy: MajorStrategy, minorBy: MinorStrategy, docs: seq<nat>,
                                       starts: seq<nat>, headings: seq<Heading>, runs: seq<seq<nat>>)
    requires YearFollowsDate(corpus) && Keyed(corpus, MajorComparator(majorBy))
    requires |docs| > 0 && InRange(docs, |corpus|) && SortedBy(docs, Ranks(corpus, MajorComparator(majorBy)))
    requires |starts| == |headings| && Starts(starts, |docs|) && Grouped(Heads(corpus, majorBy), docs, starts, |docs|, headings)
    requires |runs| == |Bounds(starts, |docs|)|
    requires forall k {:trigger runs[k]} :: 0 <= k < |runs| ==>
      RunOf(Ranks(corpus, MinorComparator(minorBy)), docs, RunStart(Bounds(starts, |docs|), k), Bounds(starts, |docs|)[k], runs[k])
    ensures |runs| == |headings| && forall k :: 0 <= k < |runs| ==> runs[k] != []
    ensures UnderHeadings(corpus, majorBy, headings, runs)
    ensures Ascending(corpus, majorBy, runs)
    ensures Distinct(headings)
    ensures RunsSorted(Ranks(corpus, MinorComparator(minorBy)), runs)
  {
    RunsAreGroups(Ranks(corpus, MinorComparator(minorBy)), docs, starts, runs);
    RunsUnderHeadings(corpus, majorBy, docs, starts, headings, runs);
    RunsAscend(corpus, majorBy, docs, starts, headings, runs);
    HeadingsDistinct(corpus, majorBy, docs, starts, headings);
  }

  /** The runs hold every index of the corpus once when together they are a
      permutation of `d3.range(n)`. */
  lemma {:induction false} RunsCoverRange(runs: seq<seq<nat>>, docs: seq<nat>, n: nat)
    requires multiset(Flatten(runs)) == multiset(docs) == multiset(Range(n))
    ensures EachOnce(runs, n)
  {
    RangeOnce(n);
  }

  /** The single empty run of an empty corpus has every property of an ordering. */
  lemma {:induction false} EmptyOrdering(corpus: seq<Doc>, majorBy: MajorStrategy, minorBy: MinorStrategy, runs: seq<seq<nat>>)
    requires Keyed(corpus, MajorComparator(majorBy))
    requires |runs| == 1 && multiset(runs[0]) == multiset{}
    ensures runs == [[]]
    ensures UnderHeadings(corpus, majorBy, [], runs) && Ascending(corpus, majorBy, runs)
    ensures RunsSorted(Ranks(corpus, MinorComparator(minorBy)), runs)
  {
    assert runs[0] == [] by {
      assert |multiset(runs[0])| == 0;
    }
  }

  /** A document without a sort key shares its heading with no other document. */
  predicate KeylessApart(corpus: seq<Doc>, major: MajorStrategy)
    requires Keyed(corpus, MajorComparator(major))
  {
    forall i, j :: 0 <= i < |corpus| && 0 <= j < |corpus| && i != j && SortKey(corpus[i].authors).Throws? ==>
      MajorSplit(corpus[i], major) != MajorSplit(corpus[j], major)
  }

  /** The minor sort compares only documents that have a sort key: under the
      alphabetical minor comparator, a document without one is alone under its
      heading, and a run of one is sorted without a comparison. */
  predicate MinorKeyed(corpus: seq<Doc>, major: MajorStrategy, minor: MinorStrategy)
    requires Keyed(corpus, MajorComparator(major))
  {
    minor == ByName ==> KeylessApart(corpus, major)
  }

  /** Each run's members are among the flattened runs, as often as in the run. */
  lemma {:induction false} FlattenContains(runs: seq<seq<nat>>, k: nat)
    requires k < |runs|
    ensures multiset(runs[k]) <= multiset(Flatten(runs))
  {
    var front := runs[..|runs| - 1];
    assert runs == front + [runs[|runs| - 1]];
    FlattenSnoc(front, runs[|runs| - 1]);
    if k < |runs| - 1 {
      FlattenContains(front, k);
      assert front[k] == runs[k];
    }
  }

  /** A sequence of copies of x holds x as often as it is long. */
  lemma {:induction false} CountSame(s: seq<nat>, x: nat)
    requires forall y :: y in s ==> y == x
    ensures multiset(s)[x] == |s|
  {
    if s != [] {
      assert s == [s[0]] + s[1..] && s[0] in s;
      assert forall y :: y in s[1..] ==> y in s;
      CountSame(s[1..], x);
    }
  }

  /** A document without a sort key, in runs that hold every document once
      under its heading, is the only member of its run. */
  lemma {:induction false} KeylessAlone(corpus: seq<Doc>, major: MajorStrategy, headings: seq<Heading>, runs: seq<seq<nat>>, k: nat, x: nat)
    requires Keyed(corpus, MajorComparator(major)) && KeylessApart(corpus, major)
    requires UnderHeadings(corpus, major, headings, runs) && EachOnce(runs, |corpus|)
    requires k < |runs| && x in runs[k] && x < |corpus| && SortKey(corpus[x].authors).Throws?
    ensures runs[k] == [x]
  {
    var run := runs[k];
    forall y | y in run ensures y == x {
      assert MajorSplit(corpus[y], major) == headings[k] == MajorSplit(corpus[x], major);
    }
    FlattenContains(runs, k);
    assert multiset(run)[x] <= 1;
    CountSame(run, x);
    assert run[0] in run;
  }

  /** A corpus of one document meets the preconditions of the date majors with
      the alphabetical minor, with or without a sort key: the run of one is never
      compared. */
  lemma SingleDocumentAccepted(d: Doc, major: MajorStrategy)
    requires major != ByAlpha
    ensures YearFollowsDate([d]) && Keyed([d], MajorComparator(major))
    ensures MinorKeyed([d], major, ByName)
  {
  }

  /** `bib_sort(m, major, minor)` over the corpus `m.meta(0..n_docs()-1)`. It
      also returns the console lines it logs. */
  method BibSort(corpus: seq<Doc>, major: string, minor: string) returns (result: Ordering, log: seq<string>)
    requires YearFollowsDate(corpus)
    requires Keyed(corpus, MajorComparator(ParseMajor(major)))
    requires MinorKeyed(corpus, ParseMajor(major), ParseMinor(minor))
    ensures log == MajorLog(major) + MinorLog(minor)
    // an empty corpus: no heading, one empty run
    ensures |corpus| == 0 ==> result == Ordering([], [[]])
    ensures |corpus| > 0 ==>
      |result.docs| == |result.headings| && forall k :: 0 <= k < |result.docs| ==> result.docs[k] != []
    ensures EachOnce(result.docs, |corpus|)
    ensures UnderHeadings(corpus, ParseMajor(major), result.headings, result.docs)
    ensures Ascending(corpus, ParseMajor(major), result.docs)
    ensures Distinct(result.headings)
    ensures RunsSorted(Ranks(corpus, MinorComparator(ParseMinor(minor))), result.docs)
    // the minor comparator never reads the key of a document that has none
    ensures ParseMinor(minor) == ByName ==>
      forall k, x {:trigger x in result.docs[k]} ::
        0 <= k < |result.docs| && x in result.docs[k] && x < |corpus| && SortKey(corpus[x].authors).Throws? ==>
        result.docs[k] == [x]
  {
    var majorBy, minorBy := ParseMajor(major), ParseMinor(minor);
    log := MajorLog(major) + MinorLog(minor);
    var docs := MajorOrder(Ranks(corpus, MajorComparator(majorBy)));
    var headings, partition := ScanHeadings(Heads(corpus, majorBy), docs);
    var runs := CutRuns(Ranks(corpus, MinorComparator(minorBy)), docs, partition);
    result := Ordering(headings, runs);
    RunsCoverRange(runs, docs, |corpus|);
    if |corpus| == 0 {
      assert docs[0..0] == [];
      EmptyOrdering(corpus, majorBy, minorBy, runs);
    } else {
      CutOrdering(corpus, majorBy, minorBy, docs, partition, headings, runs);
    }
    if minorBy == ByName {
      forall k, x | 0 <= k < |runs| && x in runs[k] && x < |corpus| && SortKey(corpus[x].authors).Throws?
        ensures runs[k] == [x]
      {
        KeylessAlone(corpus, majorBy, headings, runs, k, x);
      }
    }
  }
}
