/** The gaps and rates of a flow by the positions of its records, without running through them. */
module FlowTimeline {
  import opened Options
  import opened OnlineStatistics
  import opened Flows

  // ----- Which records bring news -----

  /** The record has more octets than the one before it, where a session starts from zero. */
  ghost predicate IsNews(o: Origin, h: seq<Record>, i: nat)
    requires i < |h|
  {
    if i == 0 then o.octets < h[0].octets
    else if h[i - 1].subType == Ipfix then 0 < h[i].octets
    else h[i - 1].octets < h[i].octets
  }

  lemma CountsIffNews(o: Origin, h: seq<Record>, i: nat)
    requires i < |h|
    ensures Counts(o, h[..i], h[i]) <==> IsNews(o, h, i)
  {
  }

  /** The positions of the records that bring news. */
  ghost function NewsAt(o: Origin, h: seq<Record>): seq<nat> {
    if h == [] then []
    else
      var n := |h| - 1;
      NewsAt(o, h[..n]) + if IsNews(o, h, n) then [n] else []
  }

  lemma {:induction false} NewsAtIff(o: Origin, h: seq<Record>)
    ensures forall k, l | 0 <= k < l < |NewsAt(o, h)| :: NewsAt(o, h)[k] < NewsAt(o, h)[l]
    ensures forall i: nat :: i in NewsAt(o, h) <==> i < |h| && IsNews(o, h, i)
  {
    if h != [] {
      var n := |h| - 1;
      NewsAtIff(o, h[..n]);
      assert forall i: nat | i < n :: IsNews(o, h[..n], i) <==> IsNews(o, h, i);
      var before := NewsAt(o, h[..n]);
      assert forall i: nat :: i in NewsAt(o, h) <==> i in before || (i == n && IsNews(o, h, n));
      assert forall k | 0 <= k < |before| :: before[k] in before;
    }
  }

  // ----- The gaps between records -----

  /** From here the next gap is measured. */
  ghost predicate Marks(o: Origin, h: seq<Record>, j: nat)
    requires j < |h|
  {
    IsNews(o, h, j) || h[j].subType == Ipfix
  }

  ghost predicate LatestMark(o: Origin, h: seq<Record>, j: nat, i: nat)
    requires j < i <= |h|
  {
    Marks(o, h, j) && forall k | j < k < i :: !Marks(o, h, k)
  }

  lemma MarksStay(o: Origin, h: seq<Record>, n: nat, j: nat)
    requires j < n <= |h|
    ensures Marks(o, h[..n], j) <==> Marks(o, h, j)
  {
  }

  lemma {:induction false} ReferenceByPosition(o: Origin, h: seq<Record>, n: nat)
    requires n <= |h|
    ensures Reference(o, h[..n]).None? ==> forall j | 0 <= j < n :: !Marks(o, h, j)
    ensures Reference(o, h[..n]).Some? ==>
              exists j: nat :: j < n && LatestMark(o, h, j, n) && Reference(o, h[..n]).value == h[j].end
  {
    hide Marks, Counts;
    if n > 0 {
      ReferenceByPosition(o, h, n - 1);
      assert h[..n][..n - 1] == h[..n - 1];
      CountsIffNews(o, h, n - 1);
      MarkIff(o, h, n - 1);
      if !Marks(o, h, n - 1) {
        assert Reference(o, h[..n]) == Reference(o, h[..n - 1]);
        if Reference(o, h[..n - 1]).Some? {
          var j: nat :| j < n - 1 && LatestMark(o, h, j, n - 1) && Reference(o, h[..n - 1]).value == h[j].end;
          assert LatestMark(o, h, j, n);
        }
      } else {
        assert LatestMark(o, h, n - 1, n);
      }
    }
  }

  lemma MarkIff(o: Origin, h: seq<Record>, j: nat)
    requires j < |h|
    ensures Marks(o, h, j) <==> IsNews(o, h, j) || h[j].subType.Ipfix?
  {
  }

  /** The time since the latest earlier record that counted or closed a session, else since the start. */
  ghost predicate IsGap(o: Origin, h: seq<Record>, i: nat, gap: real)
    requires i < |h|
  {
    || (gap == h[i].end - o.start && forall j | 0 <= j < i :: !Marks(o, h, j))
    || exists j: nat :: j < i && LatestMark(o, h, j, i) && gap == h[i].end - h[j].end
  }

  /** These are the records with news in order, and their gaps. */
  ghost predicate GapsAt(o: Origin, h: seq<Record>, at: seq<nat>, gaps: seq<real>) {
    && |at| == |gaps|
    && (forall k, l | 0 <= k < l < |at| :: at[k] < at[l])
    && (forall i: nat :: i in at <==> i < |h| && IsNews(o, h, i))
    && (forall k | 0 <= k < |at| :: at[k] < |h| && IsGap(o, h, at[k], gaps[k]))
  }

  lemma GapAt(o: Origin, h: seq<Record>, i: nat)
    requires i < |h|
    ensures IsGap(o, h, i, Gap(o, h[..i], h[i]))
  {
    hide Marks, LatestMark;
    ReferenceByPosition(o, h, i);
  }

  lemma {:induction false} GapsAtNews(o: Origin, h: seq<Record>)
    ensures |Gaps(o, h)| == |NewsAt(o, h)|
    ensures forall k | 0 <= k < |NewsAt(o, h)| ::
              && NewsAt(o, h)[k] < |h|
              && Gaps(o, h)[k] == Gap(o, h[..NewsAt(o, h)[k]], h[NewsAt(o, h)[k]])
  {
    hide Gap, Counts, IsNews;
    if h != [] {
      var n := |h| - 1;
      var before := NewsAt(o, h[..n]);
      GapsAtNews(o, h[..n]);
      CountsIffNews(o, h, n);
      forall k | 0 <= k < |before| ensures h[..n][..before[k]] == h[..before[k]] {
      }
    }
  }

  /** The gaps of a flow are those of its news, in order. */
  lemma GapsByPosition(o: Origin, h: seq<Record>)
    ensures GapsAt(o, h, NewsAt(o, h), Gaps(o, h))
  {
    hide Gap, IsGap, IsNews;
    NewsAtIff(o, h);
    GapsAtNews(o, h);
    forall k | 0 <= k < |NewsAt(o, h)| ensures IsGap(o, h, NewsAt(o, h)[k], Gaps(o, h)[k]) {
      GapAt(o, h, NewsAt(o, h)[k]);
    }
  }

  /** Without `ipfix` records the gaps together reach from the start of the flow to its last news. */
  lemma {:induction false} GapsTelescope(o: Origin, h: seq<Record>)
    requires forall r | r in h :: r.subType != Ipfix
    ensures var at := NewsAt(o, h);
            && |at| == |Gaps(o, h)|
            && if at == [] then Sum(Gaps(o, h)) == 0.0
               else at[|at| - 1] < |h| && Sum(Gaps(o, h)) == h[at[|at| - 1]].end - o.start
    ensures Reference(o, h).Some? <==> NewsAt(o, h) != []
    ensures Reference(o, h).Some? ==> Reference(o, h).value - o.start == Sum(Gaps(o, h))
  {
    hide IsNews, Counts;
    if h != [] {
      var n := |h| - 1;
      assert h[n] in h && forall r | r in h[..n] :: r in h;
      GapsTelescope(o, h[..n]);
      CountsIffNews(o, h, n);
      if Counts(o, h[..n], h[n]) {
        assert Gaps(o, h)[..|Gaps(o, h)| - 1] == Gaps(o, h[..n]);
      }
    }
  }

  // ----- The differences and rates -----

  ghost function Diffs(o: Origin, h: seq<Record>, which: Counter): seq<real> {
    if h == [] then []
    else
      var n := |h| - 1;
      Diffs(o, h[..n], which) +
      if IsNews(o, h, n) then [Abs(h[n].Reading(which) - Difference(o, h[..n], which))] else []
  }

  ghost predicate NoneCloses(h: seq<Record>, from: nat, to: nat)
    requires to <= |h|
  {
    forall m | from <= m < to :: h[m].subType != Ipfix
  }

  /** What the `k`-th news adds: in a session, what it differs from the difference before; at first, its reading. */
  ghost predicate IsDiff(h: seq<Record>, which: Counter, at: seq<nat>, diffs: seq<real>, k: nat)
    requires k < |at| == |diffs| && (forall l | 0 <= l < |at| :: at[l] < |h|)
  {
    var reading := (if which == Octets then h[at[k]].octets else h[at[k]].packets) as real;
    if k > 0 && NoneCloses(h, at[k - 1], at[k]) then
      diffs[k] >= 0.0 && (diffs[k] == reading - diffs[k - 1] || diffs[k] == diffs[k - 1] - reading)
    else diffs[k] == reading
  }

  /** The difference kept between records. */
  ghost predicate Keeps(h: seq<Record>, at: seq<nat>, diffs: seq<real>, kept: real)
    requires |at| == |diffs|
  {
    kept == if at != [] && NoneCloses(h, at[|at| - 1], |h|) then diffs[|at| - 1] else 0.0
  }

  lemma DiffIsKept(o: Origin, h: seq<Record>, which: Counter, at: seq<nat>, diffs: seq<real>)
    requires h != [] && |at| == |diffs| && forall l | 0 <= l < |at| :: at[l] < |h| - 1
    requires Keeps(h[..|h| - 1], at, diffs, Difference(o, h[..|h| - 1], which))
    ensures var n := |h| - 1;
            var d := Abs(h[n].Reading(which) - Difference(o, h[..n], which));
            if IsNews(o, h, n) then
              && IsDiff(h, which, at + [n], diffs + [d], |at|)
              && Keeps(h, at + [n], diffs + [d], Difference(o, h, which))
            else Keeps(h, at, diffs, Difference(o, h, which))
  {
    hide IsNews, Counts, NoneCloses;
    var n := |h| - 1;
    CountsIffNews(o, h, n);
    if at != [] {
      OneMoreCloses(h, at[|at| - 1]);
    }
    OneMoreCloses(h, n);
  }

  lemma OneMoreCloses(h: seq<Record>, from: nat)
    requires from < |h|
    ensures var n := |h| - 1;
            && (NoneCloses(h, from, |h|) <==> NoneCloses(h[..n], from, n) && h[n].subType != Ipfix)
            && (NoneCloses(h[..n], from, n) <==> NoneCloses(h, from, n))
            && NoneCloses(h, n, n)
  {
    var n := |h| - 1;
    assert NoneCloses(h, from, n + 1) <==> NoneCloses(h, from, n) && h[n].subType != Ipfix;
  }

  lemma IsDiffStays(h: seq<Record>, which: Counter, at: seq<nat>, diffs: seq<real>, n: nat, last: nat, d: real, k: nat)
    requires n <= |h| && last < |h| && k < |at| == |diffs| && forall l | 0 <= l < |at| :: at[l] < n
    ensures IsDiff(h[..n], which, at, diffs, k) <==> IsDiff(h, which, at, diffs, k)
    ensures IsDiff(h, which, at, diffs, k) <==> IsDiff(h, which, at + [last], diffs + [d], k)
  {
    if k > 0 {
      assert NoneCloses(h[..n], at[k - 1], at[k]) <==> NoneCloses(h, at[k - 1], at[k]);
    }
  }

  lemma {:induction false} DiffsByPosition(o: Origin, h: seq<Record>, which: Counter)
    ensures var at, diffs := NewsAt(o, h), Diffs(o, h, which);
            && |at| == |diffs| && (forall l | 0 <= l < |at| :: at[l] < |h|)
            && (forall k: nat | k < |at| :: IsDiff(h, which, at, diffs, k))
            && Keeps(h, at, diffs, Difference(o, h, which))
  {
    hide IsNews, IsDiff, Keeps, Difference, Abs;
    if h == [] {
      NothingKept(o, which);
    } else {
      var n := |h| - 1;
      var at, diffs := NewsAt(o, h[..n]), Diffs(o, h[..n], which);
      DiffsByPosition(o, h[..n], which);
      DiffIsKept(o, h, which, at, diffs);
      var d := Abs(h[n].Reading(which) - Difference(o, h[..n], which));
      forall k: nat | k < |at|
        ensures IsDiff(h, which, at, diffs, k) && IsDiff(h, which, at + [n], diffs + [d], k)
      {
        IsDiffStays(h, which, at, diffs, n, n, d, k);
      }
      assert at + [] == at && diffs + [] == diffs;
    }
  }

  lemma NothingKept(o: Origin, which: Counter)
    ensures Keeps([], NewsAt(o, []), Diffs(o, [], which), Difference(o, [], which))
  {
  }

  /** These positions are those of the gaps that are not zero, and each rate times its gap is its difference. */
  ghost predicate RatesOver(gaps: seq<real>, diffs: seq<real>, rates: seq<real>, at: seq<nat>) {
    && |at| == |rates| && |diffs| == |gaps|
    && (forall k, l | 0 <= k < l < |at| :: at[k] < at[l])
    && (forall i: nat :: i in at <==> i < |gaps| && gaps[i] != 0.0)
    && (forall k | 0 <= k < |at| :: at[k] < |gaps| && Times(rates[k], gaps[at[k]]) == diffs[at[k]])
  }

  lemma RatioTimes(a: real, b: real)
    requires b != 0.0
    ensures Times(Ratio(a, b), b) == a
  {
  }

  lemma OneMoreRate(gaps: seq<real>, diffs: seq<real>, rates: seq<real>, at: seq<nat>,
                    gap: real, diff: real, rate: real)
    requires RatesOver(gaps, diffs, rates, at)
    ensures gap == 0.0 ==> RatesOver(gaps + [gap], diffs + [diff], rates, at)
    ensures gap != 0.0 && Times(rate, gap) == diff ==>
              RatesOver(gaps + [gap], diffs + [diff], rates + [rate], at + [|gaps|])
  {
    hide Times;
    assert forall k | 0 <= k < |at| :: at[k] in at;
    var at' := at + [|gaps|];
    assert forall i: nat :: i in at' <==> i in at || i == |gaps|;
  }

  /** The recorded rates are those of the news with a gap, in order. */
  lemma {:induction false} RatesByPosition(o: Origin, h: seq<Record>, which: Counter) returns (at: seq<nat>)
    ensures RatesOver(Gaps(o, h), Diffs(o, h, which), Rates(o, h, which), at)
  {
    hide IsNews, Counts, Gap, Difference, Times, Ratio, Abs, RatesOver;
    at := [];
    if h == [] {
      NoRates(o, which);
    } else {
      var n := |h| - 1;
      at := RatesByPosition(o, h[..n], which);
      CountsIffNews(o, h, n);
      var gaps, diffs, rates := Gaps(o, h[..n]), Diffs(o, h[..n], which), Rates(o, h[..n], which);
      if IsNews(o, h, n) {
        var gap, diff := Gap(o, h[..n], h[n]), Abs(h[n].Reading(which) - Difference(o, h[..n], which));
        if gap != 0.0 {
          RatioTimes(diff, gap);
          OneMoreRate(gaps, diffs, rates, at, gap, diff, Ratio(diff, gap));
          at := at + [|gaps|];
        } else {
          OneMoreRate(gaps, diffs, rates, at, gap, diff, 0.0);
          assert rates + [] == rates;
        }
      } else {
        assert rates + [] == rates && diffs + [] == diffs;
      }
    }
  }

  lemma NoRates(o: Origin, which: Counter)
    ensures RatesOver(Gaps(o, []), Diffs(o, [], which), Rates(o, [], which), [])
  {
  }

  // ----- The idle gaps -----

  /** The session that record `j` closed is the latest one, and nothing has come since. */
  ghost predicate IdleSince(o: Origin, h: seq<Record>, j: nat, i: nat)
    requires j < i <= |h|
  {
    h[j].subType == Ipfix && forall k | j < k < i :: h[k].subType != Ipfix && !IsNews(o, h, k)
  }

  lemma {:induction false} PendingByPosition(o: Origin, h: seq<Record>, n: nat)
    requires n <= |h|
    ensures Pending(o, h[..n]) <==> exists j: nat :: j < n && IdleSince(o, h, j, n)
    ensures forall j: nat | j < n && IdleSince(o, h, j, n) :: LastIpfix(h[..n]) == Some(h[j].end)
  {
    hide IsNews, Counts;
    if n > 0 {
      var m := n - 1;
      assert h[..n][..m] == h[..m];
      PendingByPosition(o, h, m);
      CountsIffNews(o, h, m);
      forall j: nat | j < m
        ensures IdleSince(o, h, j, n) <==> IdleSince(o, h, j, m) && h[m].subType != Ipfix && !IsNews(o, h, m)
      {
      }
      assert IdleSince(o, h, m, n) <==> h[m].subType == Ipfix;
    }
  }

  ghost predicate IsIdleGap(o: Origin, h: seq<Record>, i: nat, gap: real)
    requires i < |h|
  {
    IsNews(o, h, i) && exists j: nat :: j < i && IdleSince(o, h, j, i) && gap == h[i].end - h[j].end
  }

  /** These are the first news after the end of a session, in order, with the time since that end. */
  ghost predicate IdleGapsAt(o: Origin, h: seq<Record>, at: seq<nat>, gaps: seq<real>) {
    && |at| == |gaps|
    && (forall k, l | 0 <= k < l < |at| :: at[k] < at[l])
    && (forall k | 0 <= k < |at| :: at[k] < |h| && IsIdleGap(o, h, at[k], gaps[k]))
    && (forall j: nat, i: nat | j < i < |h| && IdleSince(o, h, j, i) && IsNews(o, h, i) :: i in at)
  }

  lemma IdleStays(o: Origin, h: seq<Record>, n: nat, i: nat, gap: real)
    requires i < n <= |h|
    ensures forall j: nat | j < i :: IdleSince(o, h[..n], j, i) <==> IdleSince(o, h, j, i)
    ensures IsNews(o, h[..n], i) <==> IsNews(o, h, i)
    ensures IsIdleGap(o, h[..n], i, gap) <==> IsIdleGap(o, h, i, gap)
  {
    assert forall k | 0 <= k <= i :: IsNews(o, h[..n], k) <==> IsNews(o, h, k);
    hide IsNews;
    forall j: nat | j < i ensures IdleSince(o, h[..n], j, i) <==> IdleSince(o, h, j, i) {
    }
  }

  lemma IdleGapsStay(o: Origin, h: seq<Record>, at: seq<nat>, gaps: seq<real>)
    requires h != [] && IdleGapsAt(o, h[..|h| - 1], at, gaps)
    ensures forall k | 0 <= k < |at| :: at[k] < |h| - 1 && IsIdleGap(o, h, at[k], gaps[k])
    ensures forall j: nat, i: nat | j < i < |h| - 1 && IdleSince(o, h, j, i) && IsNews(o, h, i) :: i in at
  {
    hide IsNews, IdleSince, IsIdleGap;
    var n := |h| - 1;
    forall k | 0 <= k < |at| ensures IsIdleGap(o, h, at[k], gaps[k]) {
      IdleStays(o, h, n, at[k], gaps[k]);
    }
    forall j: nat, i: nat | j < i < n && IdleSince(o, h, j, i) && IsNews(o, h, i) ensures i in at {
      IdleStays(o, h, n, i, 0.0);
    }
  }

  lemma NewIdleGap(o: Origin, h: seq<Record>, n: nat)
    requires n < |h|
    ensures EndsIdle(o, h[..n], h[n]) ==> IsIdleGap(o, h, n, h[n].end - LastIpfix(h[..n]).value)
    ensures !EndsIdle(o, h[..n], h[n]) ==> forall j: nat | j < n :: !(IdleSince(o, h, j, n) && IsNews(o, h, n))
  {
    hide IsNews, Counts, IdleSince, LastIpfix;
    CountsIffNews(o, h, n);
    PendingByPosition(o, h, n);
  }

  lemma IdleGapsGrow(o: Origin, h: seq<Record>, at: seq<nat>, gaps: seq<real>, gap: real)
    requires h != [] && IdleGapsAt(o, h[..|h| - 1], at, gaps)
    ensures IsIdleGap(o, h, |h| - 1, gap) ==> IdleGapsAt(o, h, at + [|h| - 1], gaps + [gap])
    ensures (forall j: nat, i: nat | j < i == |h| - 1 :: !(IdleSince(o, h, j, i) && IsNews(o, h, i))) ==>
              IdleGapsAt(o, h, at, gaps)
  {
    hide IsNews, IdleSince, IsIdleGap;
    IdleGapsStay(o, h, at, gaps);
    var at' := at + [|h| - 1];
    assert forall i: nat | i in at :: i in at';
    assert at'[|at|] == |h| - 1;
  }

  lemma {:induction false} IdleGapsByPosition(o: Origin, h: seq<Record>) returns (at: seq<nat>)
    ensures IdleGapsAt(o, h, at, IdleGaps(o, h))
  {
    hide IsNews, Counts, Pending, IdleSince, IsIdleGap, IdleGapsAt, LastIpfix;
    at := [];
    if h == [] {
      NoIdleGaps(o);
    } else {
      var n := |h| - 1;
      at := IdleGapsByPosition(o, h[..n]);
      NewIdleGap(o, h, n);
      if EndsIdle(o, h[..n], h[n]) {
        IdleGapsGrow(o, h, at, IdleGaps(o, h[..n]), h[n].end - LastIpfix(h[..n]).value);
        at := at + [n];
      } else {
        IdleGapsGrow(o, h, at, IdleGaps(o, h[..n]), 0.0);
      }
    }
  }

  lemma NoIdleGaps(o: Origin)
    ensures IdleGapsAt(o, [], [], IdleGaps(o, []))
  {
  }

  // ----- A flow after any run -----

  /** The gaps that a flow has counted. */
  lemma TimesOfFlow(f: Flow) returns (at: seq<nat>, gaps: seq<real>)
    requires f.Valid()
    ensures GapsAt(f.origin, f.history, at, gaps) && f.counter == |gaps|
    ensures IsMean(f.avgTimeDiff, gaps) && f.timeM2 == SquaredDeviations(gaps, f.avgTimeDiff)
    ensures (forall r | r in f.history :: r.subType != Ipfix) ==>
              if at == [] then f.avgTimeDiff == 0.0
              else Times(f.avgTimeDiff, |at| as real) == f.history[at[|at| - 1]].end - f.origin.start
  {
    hide IsNews, IsGap, Times;
    at, gaps := NewsAt(f.origin, f.history), Gaps(f.origin, f.history);
    GapsByPosition(f.origin, f.history);
    f.TimesAreExact();
    if forall r | r in f.history :: r.subType != Ipfix {
      GapsTelescope(f.origin, f.history);
    }
  }

  /** The rates that a flow has recorded. */
  lemma RatesOfFlow(f: Flow, which: Counter) returns (at: seq<nat>, gaps: seq<real>, diffs: seq<real>, rated: seq<nat>)
    requires f.Valid()
    ensures GapsAt(f.origin, f.history, at, gaps) && |diffs| == |at|
    ensures forall k: nat | k < |at| :: at[k] < |f.history| && IsDiff(f.history, which, at, diffs, k)
    ensures RatesOver(gaps, diffs, if which == Octets then f.deltaBpsRecords else f.deltaPpsRecords, rated)
  {
    hide IsNews, IsGap, Times, IsDiff;
    var o, h := f.origin, f.history;
    at, gaps, diffs := NewsAt(o, h), Gaps(o, h), Diffs(o, h, which);
    GapsByPosition(o, h);
    DiffsByPosition(o, h, which);
    rated := RatesByPosition(o, h, which);
  }

  /** The idle gaps that a flow has averaged, if no record was lost. */
  lemma IdleOfFlow(f: Flow) returns (at: seq<nat>, gaps: seq<real>)
    requires f.Valid()
    ensures IdleGapsAt(f.origin, f.history, at, gaps)
    ensures Lost(f.origin, f.history) == 0 ==>
              && IsMean(f.avgTimeDiffIpfix, gaps) && f.timeM2Ipfix == SquaredDeviations(gaps, f.avgTimeDiffIpfix)
  {
    hide IsNews, IdleSince;
    gaps := IdleGaps(f.origin, f.history);
    at := IdleGapsByPosition(f.origin, f.history);
    f.IdleIsExact();
  }
}
