/** The `kbnIndex` service: the names of the time-based indices that cover a
    time range. Times are integers; the calendar arithmetic of the date
    library is a step function that moves a time forward by one unit of an
    interval, and formatting an index pattern at a time is an uninterpreted
    function. */
module KbnIndex {
  import opened Values
  import opened Seqs

  /** The intervals `expand_range` knows. */
  datatype Interval = Hour | Day | Week | Month | Year

  /** `_.contains(['hour','day','week','month','year'], interval)`. */
  function ParseInterval(s: string): (r: Option<Interval>)
    ensures r.None? <==> s !in {"hour", "day", "week", "month", "year"}
    ensures r == Some(Hour) <==> s == "hour"
    ensures r == Some(Day) <==> s == "day"
    ensures r == Some(Week) <==> s == "week"
    ensures r == Some(Month) <==> s == "month"
    ensures r == Some(Year) <==> s == "year"
  {
    match s
    case "hour" => Some(Hour)
    case "day" => Some(Day)
    case "week" => Some(Week)
    case "month" => Some(Month)
    case "year" => Some(Year)
    case _ => None
  }

  /** `start.add(unit, 1)`: any function that moves every time strictly forward. */
  type Step = f: (Interval, int) -> int | forall iv: Interval, t: int :: f(iv, t) > t
    witness (iv: Interval, t: int) => t + 1

  /** `moment.format(pattern)` at a time. */
  type Format = (string, int) -> string

  /** The times `expand_range` visits before `end`: `start`, one step later,
      and so on while the time is still before `end`. */
  function Steps(start: int, end: int, iv: Interval, step: Step): (r: seq<int>)
    ensures r == [] <==> end <= start
    ensures r != [] ==> r[0] == start && end <= step(iv, r[|r| - 1])
    ensures forall i :: 0 <= i < |r| ==> start <= r[i] < end
    ensures StrictlyAscending(r)
    decreases end - start
  {
    if start < end then
      var rest := Steps(step(iv, start), end, iv, step);
      assert forall i :: 0 <= i < |rest| ==> start < rest[i];
      [start] + rest
    else []
  }

  /** Each visited time is one step after the one before it. */
  lemma {:induction false} StepsChain(start: int, end: int, iv: Interval, step: Step)
    ensures forall i :: 0 <= i < |Steps(start, end, iv, step)| - 1 ==>
      Steps(start, end, iv, step)[i + 1] == step(iv, Steps(start, end, iv, step)[i])
    decreases end - start
  {
    if start < end {
      var r := Steps(start, end, iv, step);
      var rest := Steps(step(iv, start), end, iv, step);
      assert r == [start] + rest;
      StepsChain(step(iv, start), end, iv, step);
      forall i | 0 <= i < |r| - 1 ensures r[i + 1] == step(iv, r[i]) {
        if i > 0 {
          assert r[i + 1] == rest[i] && r[i] == rest[i - 1];
        } else {
          assert r[1] == rest[0];
        }
      }
    }
  }

  /** `expand_range(start, end, interval)`: the visited times followed by
      `end` itself, or false (None) for an unknown interval. */
  method ExpandRange(start: int, end: int, interval: string, step: Step) returns (r: Option<seq<int>>)
    ensures r.None? <==> ParseInterval(interval).None?
    ensures r.Some? ==> r.value == Steps(start, end, ParseInterval(interval).value, step) + [end]
    ensures r.Some? ==> r.value[|r.value| - 1] == end && forall i :: 0 <= i < |r.value| - 1 ==> r.value[i] < end
    ensures r.Some? && start < end ==> r.value[0] == start
  {
    var parsed := ParseInterval(interval);
    if parsed.None? {
      return None;
    }
    var iv := parsed.value;
    var t := start;
    var range := [];
    while t < end
      invariant range + Steps(t, end, iv, step) == Steps(start, end, iv, step)
      decreases end - t
    {
      StepsUnfold(t, end, iv, step, range);
      range := range + [t];
      t := step(iv, t);
    }
    ghost var visited := Steps(start, end, iv, step);
    assert range == visited;
    range := range + [end];
    assert forall i :: 0 <= i < |range| - 1 ==> range[i] == visited[i];
    r := Some(range);
  }

  /** One turn of the `expand_range` loop. */
  lemma StepsUnfold(t: int, end: int, iv: Interval, step: Step, range: seq<int>)
    requires t < end
    ensures range + Steps(t, end, iv, step) == (range + [t]) + Steps(step(iv, t), end, iv, step)
  {
  }

  /** The candidate index names: the pattern formatted at each boundary;
      none for an unknown interval, since `_.each(false, ...)` visits nothing. */
  function Candidates(from: int, to: int, pattern: string, interval: string, step: Step, format: Format): (r: seq<string>)
    ensures ParseInterval(interval).None? ==> r == []
    ensures ParseInterval(interval).Some? ==>
      var b := Steps(from, to, ParseInterval(interval).value, step) + [to];
      |r| == |b| && forall i :: 0 <= i < |b| ==> r[i] == format(pattern, b[i])
  {
    match ParseInterval(interval)
    case None => []
    case Some(iv) =>
      var b := Steps(from, to, iv, step) + [to];
      seq(|b|, i requires 0 <= i < |b| => format(pattern, b[i]))
  }

  /** The names formatted at the boundaries `expand_range` returns are the
      candidates. */
  lemma CandidatesOf(from: int, to: int, pattern: string, interval: string, step: Step, format: Format,
                     b: seq<int>, names: seq<string>)
    requires ParseInterval(interval).Some? && b == Steps(from, to, ParseInterval(interval).value, step) + [to]
    requires |names| == |b| && forall j :: 0 <= j < |b| ==> names[j] == format(pattern, b[j])
    ensures names == Candidates(from, to, pattern, interval, step, format)
  {
  }

  /** `_.intersection(possible, catalog)`, reversed. */
  function Resolved(possible: seq<string>, catalog: seq<string>): (r: seq<string>)
    ensures |r| <= |possible|
    ensures forall i :: 0 <= i < |r| ==> r[i] in catalog
  {
    Reverse(Intersection(possible, catalog))
  }

  /** The resolved indices are the candidates that exist in the catalog, each
      once, latest candidate first. */
  lemma ResolvedMeaning(possible: seq<string>, catalog: seq<string>)
    ensures forall x :: x in Resolved(possible, catalog) <==> x in possible && x in catalog
    ensures NoDup(Resolved(possible, catalog))
    ensures forall i, j :: 0 <= i < j < |Resolved(possible, catalog)| ==>
      IndexOf(possible, Resolved(possible, catalog)[j]) < IndexOf(possible, Resolved(possible, catalog)[i])
  {
    var c := Intersection(possible, catalog);
    ReverseMembers(c);
    IntersectionOrder(possible, catalog);
    ReversedOrder(possible, c);
  }

  /** Reversing a sequence listed in the order of first mention in `s`
      lists it latest first. */
  lemma ReversedOrder(s: seq<string>, c: seq<string>)
    requires InOrderOf(s, c)
    ensures var r := Reverse(c);
      forall i, j :: 0 <= i < j < |r| ==> IndexOf(s, r[j]) < IndexOf(s, r[i]) && r[i] != r[j]
  {
  }

  /** `indices(from, to, pattern, interval)` given the catalog of index and
      alias names the cluster reports; when that request fails, the promise
      never resolves (None). */
  method Indices(from: int, to: int, pattern: string, interval: string, step: Step, format: Format,
                 catalog: Option<seq<string>>) returns (r: Option<seq<string>>)
    ensures r.None? <==> catalog.None?
    ensures r.Some? ==> r.value == Resolved(Candidates(from, to, pattern, interval, step, format), catalog.value)
  {
    var range := ExpandRange(from, to, interval, step);
    var possible: seq<string> := [];
    if range.Some? {
      var b := range.value;
      for i := 0 to |b|
        invariant |possible| == i
        invariant forall j :: 0 <= j < i ==> possible[j] == format(pattern, b[j])
      {
        possible := possible + [format(pattern, b[i])];
      }
      CandidatesOf(from, to, pattern, interval, step, format, b, possible);
    }
    if catalog.None? {
      r := None;
    } else {
      var common := Intersection(possible, catalog.value);
      r := Some(Reverse(common));
    }
  }

  /** Daily steps over days numbered from 1 (January 1st). */
  const NextDay: Step := (iv: Interval, t: int) => t + 1

  /** `[idx-]YYYY.MM.DD` for the first four days of January 2023. */
  const DayName: Format := (pattern: string, t: int) =>
    if t == 1 then "idx-2023.01.01" else if t == 2 then "idx-2023.01.02"
    else if t == 3 then "idx-2023.01.03" else "idx-2023.01.04"

  lemma DayCandidates()
    ensures Candidates(1, 3, "[idx-]YYYY.MM.DD", "day", NextDay, DayName)
            == ["idx-2023.01.01", "idx-2023.01.02", "idx-2023.01.03"]
  {
  }

  lemma DayIntersection()
    ensures Intersection(["idx-2023.01.01", "idx-2023.01.02", "idx-2023.01.03"],
                         ["idx-2023.01.01", "idx-2023.01.02", "idx-2023.01.04"])
            == ["idx-2023.01.01", "idx-2023.01.02"]
  {
  }

  /** Resolving January 1st to 3rd by day against a catalog holding the 1st,
      the 2nd and the 4th gives the 2nd and then the 1st. */
  lemma ResolveExample()
    ensures Resolved(Candidates(1, 3, "[idx-]YYYY.MM.DD", "day", NextDay, DayName),
                     ["idx-2023.01.01", "idx-2023.01.02", "idx-2023.01.04"])
            == ["idx-2023.01.02", "idx-2023.01.01"]
  {
    DayCandidates();
    DayIntersection();
    var r := Reverse(["idx-2023.01.01", "idx-2023.01.02"]);
    assert r[0] == "idx-2023.01.02" && r[1] == "idx-2023.01.01";
  }
}
