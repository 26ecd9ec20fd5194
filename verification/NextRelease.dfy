/** Stepping X.Y streams forward (pkg/common/versions/common/utils.go). */
module NextRelease {
  import opened Seqs
  import opened Text
  import opened Semver
  import opened Sorting
  import opened Spi

  datatype Stream = Stream(major: nat, minor: nat)

  datatype SelectError =
    | Unparsable
    | GivenNotListed
    | NoEligibleRelease
    | NoBucket

  function StreamOf(v: Version): Stream { Stream(v.major, v.minor) }

  predicate Below(s: Stream, t: Stream) {
    s.major < t.major || (s.major == t.major && s.minor < t.minor)
  }

  ghost function Streams(list: seq<Release>): set<Stream> {
    set r | r in list :: StreamOf(r.version)
  }

  /** The streams of the list above `given`. */
  ghost function Above(list: seq<Release>, given: Stream): set<Stream> {
    set s | s in Streams(list) && Below(given, s)
  }

  /** The streams of the list above `given`, up to and including `t`. */
  ghost function Between(list: seq<Release>, given: Stream, t: Stream): set<Stream> {
    set s | s in Above(list, given) && !Below(t, s)
  }

  // ---------- X.Y as text ----------

  function StreamText(s: Stream): string { Dec(s.major) + "." + Dec(s.minor) }

  function MajorMinorString(v: Option<Version>): string {
    match v
    case None => ""
    case Some(w) => StreamText(StreamOf(w))
  }

  /** The version X.Y.0. */
  function FirstOf(s: Stream): Version { Version(s.major, s.minor, 0, [], StreamText(s)) }

  /** Parsing of X.Y; the empty text is no version. */
  function ParseStream(text: string): Option<Version> {
    var dot := LastIndex(text, '.');
    if dot < 0 then None
    else match (ParseDec(text[..dot]), ParseDec(text[dot + 1..])) {
      case (Some(x), Some(y)) => Some(FirstOf(Stream(x, y)))
      case _ => None
    }
  }

  lemma ParsePrinted(s: Stream)
    ensures ParseStream(StreamText(s)) == Some(FirstOf(s))
  {
    var x, y, text := Dec(s.major), Dec(s.minor), StreamText(s);
    assert text[|x|] == '.';
    DecHasNo(s.minor, '.');
    assert forall j | |x| < j < |text| :: text[j] == y[j - |x| - 1];
    assert LastIndex(text, '.') == |x|;
    assert text[..|x|] == x && text[|x| + 1..] == y;
    ParseDecOfDec(s.major);
    ParseDecOfDec(s.minor);
  }

  lemma StreamTextInjective(s: Stream, t: Stream)
    requires StreamText(s) == StreamText(t)
    ensures s == t
  {
    ParsePrinted(s);
    ParsePrinted(t);
  }

  // ---------- buckets ----------

  /** v is preferred to w: nightly first, then precedence. */
  predicate Outranks(v: Version, w: Version) {
    (PreIsNightly(v) && !PreIsNightly(w)) || (PreIsNightly(v) == PreIsNightly(w) && Less(w, v))
  }

  /** No release of the stream outranks number k, and number k outranks every earlier one. */
  ghost predicate Wins(list: seq<Release>, k: nat) {
    && k < |list|
    && forall j | 0 <= j < |list| && StreamOf(list[j].version) == StreamOf(list[k].version) ::
      !Outranks(list[j].version, list[k].version) && (j < k ==> Outranks(list[k].version, list[j].version))
  }

  ghost predicate BucketOf(list: seq<Release>, text: string, v: Version) {
    exists k | 0 <= k < |list| :: Wins(list, k) && list[k].version == v && StreamText(StreamOf(v)) == text
  }

  /** A winner is nightly if any release of its stream is, and no release that is nightly like it is above it. */
  lemma WinnerMeans(list: seq<Release>, v: Version)
    requires exists k | 0 <= k < |list| :: Wins(list, k) && list[k].version == v
    ensures forall x | x in list && x.version.major == v.major && x.version.minor == v.minor ::
      && (PreIsNightly(x.version) ==> PreIsNightly(v))
      && (PreIsNightly(x.version) == PreIsNightly(v) ==> !Less(v, x.version))
  {
    forall x | x in list && x.version.major == v.major && x.version.minor == v.minor
      ensures !Outranks(x.version, v)
    {
      var j :| 0 <= j < |list| && list[j] == x;
    }
  }

  method Takes(v: Version, current: Version) returns (take: bool)
    ensures take <==> Outranks(v, current)
  {
    var vNightly, currentNightly := PreIsNightly(v), PreIsNightly(current);
    if vNightly && !currentNightly {
      return true;
    } else if currentNightly && !vNightly {
      return false;
    }
    take := Less(current, v);
  }

  ghost predicate Covered(list: seq<Release>, buckets: map<string, Version>) {
    forall j | 0 <= j < |list| :: StreamText(StreamOf(list[j].version)) in buckets
  }

  /** One bucket for each stream, holding the winner of the stream. */
  ghost predicate Bucketed(list: seq<Release>, buckets: map<string, Version>) {
    && Covered(list, buckets)
    && (forall text | text in buckets :: BucketOf(list, text, buckets[text]))
  }

  lemma StillCovered(list: seq<Release>, i: nat, buckets: map<string, Version>, after: map<string, Version>)
    requires i < |list| && buckets.Keys + {StreamText(StreamOf(list[i].version))} <= after.Keys
    requires Covered(list[..i], buckets)
    ensures Covered(list[..i + 1], after)
  {
    var more := list[..i + 1];
    forall j | 0 <= j < |more|
      ensures StreamText(StreamOf(more[j].version)) in after
    {
      assert j < i ==> more[j] == list[..i][j];
    }
  }

  lemma NewWinner(list: seq<Release>, i: nat, k: nat)
    requires i < |list| && Wins(list[..i], k) && StreamOf(list[i].version) == StreamOf(list[k].version)
    requires Outranks(list[i].version, list[k].version)
    ensures Wins(list[..i + 1], i)
  {
    PrecedenceIsStrictWeak();
    var more := list[..i + 1];
    assert forall j | 0 <= j < i :: more[j] == list[..i][j];
  }

  lemma OldWinner(list: seq<Release>, i: nat, k: nat)
    requires i < |list| && Wins(list[..i], k)
    requires StreamOf(list[i].version) == StreamOf(list[k].version) ==> !Outranks(list[i].version, list[k].version)
    ensures Wins(list[..i + 1], k)
  {
    var more := list[..i + 1];
    assert forall j | 0 <= j < i :: more[j] == list[..i][j];
  }

  /** One more release leaves a winner in place unless it outranks it. */
  lemma BucketStep(list: seq<Release>, i: nat, text: string, current: Version)
    requires i < |list| && BucketOf(list[..i], text, current)
    ensures
      var v := list[i].version;
      BucketOf(list[..i + 1], text,
               if StreamText(StreamOf(v)) == text && Outranks(v, current) then v else current)
  {
    var v := list[i].version;
    var k :| 0 <= k < i && Wins(list[..i], k) && list[..i][k].version == current && StreamText(StreamOf(current)) == text;
    if StreamText(StreamOf(v)) == text {
      StreamTextInjective(StreamOf(v), StreamOf(current));
    }
    if StreamText(StreamOf(v)) == text && Outranks(v, current) {
      NewWinner(list, i, k);
      assert list[..i + 1][i].version == v;
    } else {
      OldWinner(list, i, k);
      assert list[..i + 1][k].version == current;
    }
  }

  /** The first release of a stream wins it. */
  lemma FreshBucket(list: seq<Release>, i: nat, buckets: map<string, Version>)
    requires i < |list| && StreamText(StreamOf(list[i].version)) !in buckets
    requires Bucketed(list[..i], buckets)
    ensures BucketOf(list[..i + 1], StreamText(StreamOf(list[i].version)), list[i].version)
  {
    PrecedenceIsStrictWeak();
    forall j | 0 <= j < i
      ensures StreamOf(list[j].version) != StreamOf(list[i].version)
    {
      assert list[..i][j] == list[j];
    }
    assert Wins(list[..i + 1], i);
  }

  lemma BucketedStep(list: seq<Release>, i: nat, buckets: map<string, Version>)
    requires i < |list| && Bucketed(list[..i], buckets)
    ensures
      var v := list[i].version;
      var text := StreamText(StreamOf(v));
      Bucketed(list[..i + 1], if text in buckets && !Outranks(v, buckets[text]) then buckets else buckets[text := v])
  {
    var v := list[i].version;
    var text := StreamText(StreamOf(v));
    var after := if text in buckets && !Outranks(v, buckets[text]) then buckets else buckets[text := v];
    forall other | other in after
      ensures BucketOf(list[..i + 1], other, after[other])
    {
      if other in buckets {
        BucketStep(list, i, other, buckets[other]);
      } else {
        FreshBucket(list, i, buckets);
      }
    }
    StillCovered(list, i, buckets, after);
  }

  /** The bucketing loop. */
  method Bucket(list: seq<Release>) returns (buckets: map<string, Version>)
    ensures forall s | s in Streams(list) :: StreamText(s) in buckets
    ensures forall text | text in buckets :: BucketOf(list, text, buckets[text])
    ensures forall text, x | text in buckets && x in list && StreamText(StreamOf(x.version)) == text ::
      && (PreIsNightly(x.version) ==> PreIsNightly(buckets[text]))
      && (PreIsNightly(x.version) == PreIsNightly(buckets[text]) ==> !Less(buckets[text], x.version))
  {
    buckets := map[];
    for i := 0 to |list|
      invariant Bucketed(list[..i], buckets)
    {
      var v := list[i].version;
      var text := MajorMinorString(Some(v));
      BucketedStep(list, i, buckets);
      if text in buckets {
        var take := Takes(v, buckets[text]);
        if take {
          buckets := buckets[text := v];
        }
      } else {
        buckets := buckets[text := v];
      }
    }
    assert list == list[..|list|];
    forall text, x | text in buckets && x in list && StreamText(StreamOf(x.version)) == text
      ensures !Outranks(x.version, buckets[text])
    {
      StreamTextInjective(StreamOf(x.version), StreamOf(buckets[text]));
      var j :| 0 <= j < |list| && list[j] == x;
    }
  }

  // ---------- the ascending streams ----------

  function StreamsOf(versions: seq<Version>): seq<Stream> {
    seq(|versions|, i requires 0 <= i < |versions| => StreamOf(versions[i]))
  }

  predicate Distinct<T(==)>(s: seq<T>) {
    forall i, j | 0 <= i < j < |s| :: s[i] != s[j]
  }

  predicate Increasing(streams: seq<Stream>) {
    forall i, j | 0 <= i < j < |streams| :: Below(streams[i], streams[j])
  }

  predicate AllFirst(versions: seq<Version>) {
    forall i | 0 <= i < |versions| :: versions[i] == FirstOf(StreamOf(versions[i]))
  }

  /** The streams of the list, each as its X.Y.0, in ascending order. */
  ghost predicate Ascending(list: seq<Release>, order: seq<Version>) {
    AllFirst(order) && Increasing(StreamsOf(order)) && Streams(list) == set s | s in StreamsOf(order)
  }

  /** The keys seen so far are the texts of the streams parsed so far, each once. */
  ghost predicate Parsed(list: seq<Release>, seen: set<string>, parsed: seq<Version>) {
    && AllFirst(parsed)
    && Distinct(StreamsOf(parsed))
    && forall s :: s in StreamsOf(parsed) <==> s in Streams(list) && StreamText(s) in seen
  }

  lemma ParsedStep(list: seq<Release>, seen: set<string>, parsed: seq<Version>, s: Stream)
    requires Parsed(list, seen, parsed) && s in Streams(list) && StreamText(s) !in seen
    ensures Parsed(list, seen + {StreamText(s)}, parsed + [FirstOf(s)])
  {
    var more := StreamsOf(parsed + [FirstOf(s)]);
    assert more == StreamsOf(parsed) + [s];
    forall t
      ensures t in more <==> t in Streams(list) && StreamText(t) in seen + {StreamText(s)}
    {
      if StreamText(t) == StreamText(s) {
        StreamTextInjective(t, s);
      }
    }
  }

  lemma BucketStream(list: seq<Release>, text: string, v: Version)
    requires BucketOf(list, text, v)
    ensures StreamOf(v) in Streams(list) && StreamText(StreamOf(v)) == text
    ensures ParseStream(text) == Some(FirstOf(StreamOf(v)))
  {
    var k :| 0 <= k < |list| && Wins(list, k) && list[k].version == v;
    assert list[k] in list;
    ParsePrinted(StreamOf(v));
  }

  lemma ParseStep(list: seq<Release>, buckets: map<string, Version>, rest: set<string>, parsed: seq<Version>, text: string)
    requires text in rest && rest <= buckets.Keys && BucketOf(list, text, buckets[text])
    requires Parsed(list, buckets.Keys - rest, parsed)
    ensures ParseStream(text).Some? && Parsed(list, buckets.Keys - (rest - {text}), parsed + [ParseStream(text).value])
  {
    BucketStream(list, text, buckets[text]);
    ParsedStep(list, buckets.Keys - rest, parsed, StreamOf(buckets[text]));
    assert buckets.Keys - (rest - {text}) == buckets.Keys - rest + {text};
  }

  /** The bucket keys, visited in any order and parsed: the parse never fails. */
  method ParseKeys(ghost list: seq<Release>, buckets: map<string, Version>)
    returns (r: Result<seq<Version>, SelectError>)
    requires forall text | text in buckets :: BucketOf(list, text, buckets[text])
    ensures r.Ok? && Parsed(list, buckets.Keys, r.value)
  {
    var parsed: seq<Version> := [];
    var rest := buckets.Keys;
    while rest != {}
      invariant rest <= buckets.Keys
      invariant Parsed(list, buckets.Keys - rest, parsed)
    {
      var text :| text in rest;
      ParseStep(list, buckets, rest, parsed, text);
      rest := rest - {text};
      var v := ParseStream(text);
      if v.None? {
        return Err(Unparsable);
      }
      parsed := parsed + [v.value];
    }
    assert buckets.Keys - rest == buckets.Keys;
    r := Ok(parsed);
  }

  lemma StreamMember(versions: seq<Version>, s: Stream)
    requires forall v | v in versions :: v == FirstOf(StreamOf(v))
    ensures s in StreamsOf(versions) <==> FirstOf(s) in versions
  {
    if s in StreamsOf(versions) {
      var i :| 0 <= i < |versions| && StreamsOf(versions)[i] == s;
      assert versions[i] in versions;
    }
    if FirstOf(s) in versions {
      var i :| 0 <= i < |versions| && versions[i] == FirstOf(s);
      assert StreamsOf(versions)[i] == s;
    }
  }

  lemma {:induction false} DistinctCounts<T>(s: seq<T>)
    ensures Distinct(s) <==> forall x | x in s :: multiset(s)[x] == 1
  {
    if s == [] {
    } else {
      var front, last := s[..|s| - 1], s[|s| - 1];
      assert s == front + [last];
      DistinctCounts(front);
      if Distinct(s) {
        assert last !in front;
      }
      if forall x | x in s :: multiset(s)[x] == 1 {
        assert multiset(s)[last] == 1;
        assert last !in front;
        forall x | x in front
          ensures multiset(front)[x] == 1
        {
          assert x in s && x != last;
        }
      }
    }
  }

  lemma DistinctPermutation<T>(s: seq<T>, t: seq<T>)
    requires Distinct(s) && multiset(s) == multiset(t)
    ensures Distinct(t)
  {
    DistinctCounts(s);
    DistinctCounts(t);
    forall x | x in t
      ensures multiset(t)[x] == 1
    {
      assert x in multiset(t);
      assert x in s;
    }
  }

  lemma SortedIsAscending(parsed: seq<Version>, order: seq<Version>)
    requires AllFirst(parsed) && Distinct(StreamsOf(parsed))
    requires multiset(parsed) == multiset(order) && SortedBy(Less, order)
    ensures AllFirst(order) && Increasing(StreamsOf(order))
    ensures (set s | s in StreamsOf(order)) == (set s | s in StreamsOf(parsed))
  {
    forall v
      ensures v in order <==> v in parsed
    {
      assert v in order <==> v in multiset(order);
      assert v in parsed <==> v in multiset(parsed);
    }
    forall i | 0 <= i < |order|
      ensures order[i] == FirstOf(StreamOf(order[i]))
    {
      assert order[i] in parsed;
    }
    forall s
      ensures s in StreamsOf(order) <==> FirstOf(s) in order
      ensures s in StreamsOf(parsed) <==> FirstOf(s) in parsed
    {
      StreamMember(order, s);
      StreamMember(parsed, s);
    }
    forall i, j | 0 <= i < j < |parsed|
      ensures parsed[i] != parsed[j]
    {
      assert StreamsOf(parsed)[i] != StreamsOf(parsed)[j];
    }
    DistinctPermutation(parsed, order);
    forall i, j | 0 <= i < j < |order|
      ensures Below(StreamsOf(order)[i], StreamsOf(order)[j])
    {
      assert !Less(order[j], order[i]) && order[i] != order[j];
      assert order[i] in parsed && order[j] in parsed;
    }
  }

  method SortedStreams(ghost list: seq<Release>, buckets: map<string, Version>)
    returns (r: Result<seq<Version>, SelectError>)
    requires forall s | s in Streams(list) :: StreamText(s) in buckets
    requires forall text | text in buckets :: BucketOf(list, text, buckets[text])
    ensures r.Ok? && Ascending(list, r.value)
  {
    var parsed := ParseKeys(list, buckets);
    if parsed.Err? {
      return Err(Unparsable);
    }
    PrecedenceIsStrictWeak();
    var order := SortSlice(Less, parsed.value);
    SortedIsAscending(parsed.value, order);
    r := Ok(order);
  }

  lemma {:induction false} DistinctCardinality<T>(s: seq<T>)
    requires Distinct(s)
    ensures |set x | x in s| == |s|
  {
    if s == [] {
    } else {
      var front := s[..|s| - 1];
      DistinctCardinality(front);
      assert (set x | x in s) == (set x | x in front) + {s[|s| - 1]};
    }
  }

  lemma BetweenIsSpan(list: seq<Release>, streams: seq<Stream>, g: nat, t: nat)
    requires Increasing(streams) && Streams(list) == set s | s in streams
    requires g <= t < |streams|
    ensures |Between(list, streams[g], streams[t])| == t - g
  {
    var span := streams[g + 1..t + 1];
    DistinctCardinality(span);
    forall s
      ensures s in Between(list, streams[g], streams[t]) <==> s in span
    {
      if s in streams {
        var p :| 0 <= p < |streams| && streams[p] == s;
        assert Below(streams[g], s) && !Below(streams[t], s) <==> g < p <= t;
        assert g < p <= t ==> span[p - g - 1] == s;
      }
    }
    assert Between(list, streams[g], streams[t]) == set s | s in span;
  }

  /** Position is rank: between positions g and t of the ascending order lie t - g streams. */
  lemma PositionIsRank(list: seq<Release>, order: seq<Version>, g: nat)
    requires Ascending(list, order) && g < |order|
    ensures forall t | g <= t < |order| :: |Between(list, StreamOf(order[g]), StreamOf(order[t]))| == t - g
    ensures |Above(list, StreamOf(order[g]))| == |order| - 1 - g
  {
    var streams := StreamsOf(order);
    forall t | g <= t < |order|
      ensures |Between(list, StreamOf(order[g]), StreamOf(order[t]))| == t - g
    {
      BetweenIsSpan(list, streams, g, t);
    }
    var last := streams[|order| - 1];
    assert Above(list, streams[g]) == Between(list, streams[g], last);
  }

  // ---------- the selection ----------

  /** v is the winner of the stream that lies n streams above `given`. */
  ghost predicate Selected(list: seq<Release>, given: Stream, n: nat, v: Version) {
    && StreamOf(v) in Streams(list)
    && (StreamOf(v) == given || Below(given, StreamOf(v)))
    && |Between(list, given, StreamOf(v))| == n
    && exists k | 0 <= k < |list| :: Wins(list, k) && list[k].version == v
  }

  lemma StreamAt(list: seq<Release>, order: seq<Version>, g: nat, t: nat)
    requires Ascending(list, order) && g <= t < |order|
    ensures StreamOf(order[t]) in Streams(list) && (g == t || Below(StreamOf(order[g]), StreamOf(order[t])))
  {
    assert StreamsOf(order)[t] in StreamsOf(order);
    assert g < t ==> Below(StreamsOf(order)[g], StreamsOf(order)[t]);
  }

  /** Stepping n positions up from a stream. */
  lemma StepsFrom(list: seq<Release>, order: seq<Version>, g: nat, n: nat)
    requires Ascending(list, order) && g < |order|
    ensures n <= |Above(list, StreamOf(order[g]))| <==> g + n < |order|
    ensures g + n < |order| ==>
      var s, t := StreamOf(order[g]), StreamOf(order[g + n]);
      t in Streams(list) && (t == s || Below(s, t)) && |Between(list, s, t)| == n
  {
    PositionIsRank(list, order, g);
    if g + n < |order| {
      StreamAt(list, order, g, g + n);
    }
  }

  /** A bucket for each stream, each with a winner. */
  ghost predicate Covering(list: seq<Release>, buckets: map<string, Version>) {
    && (forall s | s in Streams(list) :: StreamText(s) in buckets)
    && (forall text | text in buckets :: BucketOf(list, text, buckets[text]))
  }

  /** What the bucket of a listed stream holds. */
  method Winner(ghost list: seq<Release>, buckets: map<string, Version>, ghost s: Stream, text: string)
    returns (r: Result<Version, SelectError>)
    requires forall t | t in Streams(list) :: StreamText(t) in buckets
    requires forall key | key in buckets :: BucketOf(list, key, buckets[key])
    requires s in Streams(list) && text == StreamText(s)
    ensures r.Ok? && StreamOf(r.value) == s
    ensures exists k | 0 <= k < |list| :: Wins(list, k) && list[k].version == r.value
  {
    if text !in buckets {
      return Err(NoBucket);
    }
    BucketStream(list, text, buckets[text]);
    StreamTextInjective(s, StreamOf(buckets[text]));
    r := Ok(buckets[text]);
  }

  /** The position of the given stream, or -1. */
  method FindStream(order: seq<Version>, ghost given: Stream, v: Version) returns (index: int)
    requires AllFirst(order) && v == FirstOf(given)
    ensures -1 <= index < |order|
    ensures index == -1 <==> given !in StreamsOf(order)
    ensures index >= 0 ==> StreamOf(order[index]) == given
  {
    index := -1;
    for i := 0 to |order|
      invariant index == -1 && forall j | 0 <= j < i :: StreamOf(order[j]) != given
    {
      SameMeansSameFields(order[i], v);
      if Same(order[i], v) {
        assert StreamsOf(order)[i] == given;
        return i;
      }
    }
  }

  lemma StepSelects(list: seq<Release>, order: seq<Version>, index: nat, n: nat, v: Version)
    requires Ascending(list, order) && index + n < |order| && StreamOf(v) == StreamOf(order[index + n])
    requires exists k | 0 <= k < |list| :: Wins(list, k) && list[k].version == v
    ensures Selected(list, StreamOf(order[index]), n, v)
  {
    StepsFrom(list, order, index, n);
  }

  lemma PositionsAbove(list: seq<Release>, order: seq<Version>, index: nat, n: nat)
    requires Ascending(list, order) && index < |order|
    ensures n <= |Above(list, StreamOf(order[index]))| <==> index + n < |order|
  {
    StepsFrom(list, order, index, n);
  }

  /** The winner of the stream n positions up, if there are so many. */
  method WinnerAbove(ghost list: seq<Release>, buckets: map<string, Version>, order: seq<Version>, index: nat, n: nat)
    returns (r: Result<Version, SelectError>)
    requires Covering(list, buckets) && Ascending(list, order) && index + n < |order|
    ensures r.Ok? && Selected(list, StreamOf(order[index]), n, r.value)
  {
    StreamAt(list, order, index, index + n);
    var next := order[index + n];
    r := Winner(list, buckets, StreamOf(next), MajorMinorString(Some(next)));
    StepSelects(list, order, index, n, r.value);
  }

  /** From the position of the given stream to the winner n positions up. */
  method Step(ghost list: seq<Release>, buckets: map<string, Version>, order: seq<Version>, index: nat, n: nat)
    returns (r: Result<Version, SelectError>)
    requires Covering(list, buckets) && Ascending(list, order) && index < |order|
    ensures r.Ok? <==> n <= |Above(list, StreamOf(order[index]))|
    ensures r.Ok? ==> Selected(list, StreamOf(order[index]), n, r.value)
    ensures r.Err? ==> r == Err(NoEligibleRelease)
  {
    PositionsAbove(list, order, index, n);
    if |order| <= index + n {
      return Err(NoEligibleRelease);
    }
    r := WinnerAbove(list, buckets, order, index, n);
  }

  method NextReleaseAfterGivenVersion(given: Option<Version>, list: seq<Release>, n: nat)
    returns (r: Result<Version, SelectError>)
    ensures r.Ok? <==> given.Some? && StreamOf(given.value) in Streams(list) && n <= |Above(list, StreamOf(given.value))|
    ensures r.Ok? ==> Selected(list, StreamOf(given.value), n, r.value)
    ensures r == Err(Unparsable) <==> given.None?
    ensures r == Err(GivenNotListed) <==> given.Some? && StreamOf(given.value) !in Streams(list)
    ensures r != Err(NoBucket)
    ensures r.Ok? ==> forall x | x in list && x.version.major == r.value.major && x.version.minor == r.value.minor ::
      && (PreIsNightly(x.version) ==> PreIsNightly(r.value))
      && (PreIsNightly(x.version) == PreIsNightly(r.value) ==> !Less(r.value, x.version))
  {
    var buckets := Bucket(list);
    var ordered := SortedStreams(list, buckets);
    if ordered.Err? {
      return Err(Unparsable);
    }
    var order := ordered.value;

    if given.Some? {
      ParsePrinted(StreamOf(given.value));
    }
    var parsed := ParseStream(MajorMinorString(given));
    if parsed.None? {
      return Err(Unparsable);
    }

    var index := FindStream(order, StreamOf(given.value), parsed.value);
    if index == -1 {
      return Err(GivenNotListed);
    }
    r := Step(list, buckets, order, index, n);
    if r.Ok? {
      WinnerMeans(list, r.value);
    }
  }

  lemma {:induction false} SubsetSize<T>(a: set<T>, b: set<T>)
    requires a <= b
    ensures |a| <= |b|
  {
    if a == {} {
    } else {
      var x :| x in a;
      SubsetSize(a - {x}, b - {x});
    }
  }

  /** The number of streams in between determines the stream. */
  lemma RankDeterminesStream(list: seq<Release>, given: Stream, s: Stream, t: Stream)
    requires s in Streams(list) && (s == given || Below(given, s))
    requires t in Streams(list) && (t == given || Below(given, t))
    requires |Between(list, given, s)| == |Between(list, given, t)|
    ensures s == t
  {
    if s != t {
      var low, high := if Below(s, t) then s else t, if Below(s, t) then t else s;
      assert Between(list, given, low) <= Between(list, given, high);
      assert high in Between(list, given, high) && high !in Between(list, given, low);
      var without := Between(list, given, high) - {high};
      assert Between(list, given, low) <= without;
      SubsetSize(Between(list, given, low), without);
    }
  }

  /** Of the releases that tie with it the selected one is the first in the list. */
  lemma SelectedIsEarliest(list: seq<Release>, given: Stream, n: nat, v: Version) returns (k: nat)
    requires Selected(list, given, n, v)
    ensures k < |list| && list[k].version == v
    ensures forall j | 0 <= j < k && list[j].version.major == v.major && list[j].version.minor == v.minor ::
      PreIsNightly(list[j].version) == PreIsNightly(v) ==> Less(list[j].version, v)
  {
    k :| 0 <= k < |list| && Wins(list, k) && list[k].version == v;
  }

  /** Permuting the list changes success never, and the selected version only among
      versions of equal precedence that are alike nightly or not. */
  lemma PermutationInvariance(list: seq<Release>, other: seq<Release>, given: Stream, n: nat, v: Version, w: Version)
    requires multiset(list) == multiset(other)
    ensures Streams(list) == Streams(other) && Above(list, given) == Above(other, given)
    ensures Selected(list, given, n, v) && Selected(other, given, n, w) ==> Same(v, w) && PreIsNightly(v) == PreIsNightly(w)
  {
    SameMembers(list, other);
    if Selected(list, given, n, v) && Selected(other, given, n, w) {
      assert Between(list, given, StreamOf(w)) == Between(other, given, StreamOf(w));
      RankDeterminesStream(list, given, StreamOf(v), StreamOf(w));
      PrecedenceIsStrictWeak();
      var k :| 0 <= k < |list| && Wins(list, k) && list[k].version == v;
      var m :| 0 <= m < |other| && Wins(other, m) && other[m].version == w;
      assert other[m] in list && list[k] in other;
      assert !Outranks(w, v) && !Outranks(v, w);
    }
  }

  /** The winner of a stream is one position only, so the whole selection is a function of the list:
      the order in which the bucket map is visited does not matter. */
  lemma SelectionIsUnique(list: seq<Release>, given: Stream, n: nat, v: Version, w: Version)
    requires Selected(list, given, n, v) && Selected(list, given, n, w)
    ensures v == w
  {
    RankDeterminesStream(list, given, StreamOf(v), StreamOf(w));
    PrecedenceIsStrictWeak();
    var k :| 0 <= k < |list| && Wins(list, k) && list[k].version == v;
    var m :| 0 <= m < |list| && Wins(list, m) && list[m].version == w;
  }

  /** SelectVersion of the selector `next version after prod default`
      (pkg/common/versions/installselectors/next_version_after_prod_default.go), used only for n above -1. */
  method SelectAfterDefault(list: VersionList, n: nat) returns (r: Result<Version, SelectError>)
    ensures
      var d := Default(list);
      && (r.Ok? <==> d.Some? && StreamOf(d.value) in Streams(list.available) && n <= |Above(list.available, StreamOf(d.value))|)
      && (r.Ok? ==> Selected(list.available, StreamOf(d.value), n, r.value))
    ensures r.Ok? ==> forall x | x in list.available && x.version.major == r.value.major && x.version.minor == r.value.minor ::
      && (PreIsNightly(x.version) ==> PreIsNightly(r.value))
      && (PreIsNightly(x.version) == PreIsNightly(r.value) ==> !Less(r.value, x.version))
  {
    r := NextReleaseAfterGivenVersion(Default(list), list.available, n);
  }
}
