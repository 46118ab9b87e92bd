/**
 * The listening history of the Podcasts page: seen episodes read from the
 * Podcast Addict backup, their `MM:SS` / `H:MM:SS` durations parsed, the
 * plays before 2018 dropped, each play joined to its podcast, and the
 * per-year totals, deltas and top ten drawn from the result. Durations are
 * whole seconds; instants are milliseconds since 1970-01-01, with no time
 * zone.
 */
module Podcasts {
  import opened Results
  import opened Sorting
  import opened Text
  import Calendar

  /** A row of the `podcasts` table. */
  datatype Podcast = Podcast(id: int, name: string)

  /** A row of the `episodes` table, with the columns the page reads. */
  datatype Episode = Episode(podcastId: int, name: string, duration: string, playbackDate: int, seenStatus: int)

  /** A seen episode whose duration has been parsed. */
  datatype Listen = Listen(podcastId: int, name: string, seconds: nat, playbackDate: int)

  /** A row of the podcast frame; the podcast is missing when no podcast has the episode's id. */
  datatype Play = Play(podcast: Option<string>, name: string, seconds: nat, playbackDate: int)

  const FirstYear := 2018
  const TopCount := 10

  // ---------------------------------------------------------------------
  // load_podcast_df

  /** The `WHERE` clause: seen, with a known duration and a known playback instant. */
  predicate IsSeen(e: Episode) {
    e.seenStatus == 1 && e.duration != "-1" && e.playbackDate != -1
  }

  /** A five-character duration is `MM:SS` and gets an hour field of `00:`. */
  function PadDuration(d: string): string {
    if |d| == 5 then "00:" + d else d
  }

  /** The pieces of `t` between colons. */
  function Split(t: string): (parts: seq<string>)
    ensures |parts| >= 1
  {
    if t == [] then [""]
    else
      var rest := Split(t[1..]);
      if t[0] == ':' then [""] + rest else [[t[0]] + rest[0]] + rest[1..]
  }

  predicate IsField(s: string) {
    s != [] && AllDigits(s)
  }

  /** `pd.to_timedelta` on an `H:MM:SS` text: three colon-separated digit fields, read as seconds. */
  function ParseClock(t: string): Option<nat> {
    var p := Split(t);
    if |p| == 3 && IsField(p[0]) && IsField(p[1]) && IsField(p[2]) then
      Some(ParseNat(p[0]) * 3600 + ParseNat(p[1]) * 60 + ParseNat(p[2]))
    else None
  }

  /** The duration of a seen episode, in seconds. */
  function EpisodeSeconds(e: Episode): Option<nat> {
    ParseClock(PadDuration(e.duration))
  }

  lemma {:induction false} SplitField(a: string)
    requires ':' !in a
    ensures Split(a) == [a]
  {
    if a != [] {
      assert ':' !in a[1..];
      SplitField(a[1..]);
      assert [a[0]] + a[1..] == a;
    }
  }

  lemma {:induction false} SplitAppend(a: string, b: string)
    requires ':' !in a
    ensures Split(a + ":" + b) == [a] + Split(b)
  {
    if a == [] {
      assert a + ":" + b == [':'] + b;
      assert ([':'] + b)[1..] == b;
    } else {
      assert (a + ":" + b)[0] == a[0];
      assert (a + ":" + b)[1..] == a[1..] + ":" + b;
      SplitAppend(a[1..], b);
      assert [a[0]] + a[1..] == a;
    }
  }

  lemma DigitsHaveNoColon(a: string)
    requires AllDigits(a)
    ensures ':' !in a
  {
  }

  lemma SplitClock(h: string, m: string, s: string)
    requires AllDigits(h) && AllDigits(m) && AllDigits(s)
    ensures Split(h + ":" + m + ":" + s) == [h, m, s]
  {
    DigitsHaveNoColon(h);
    DigitsHaveNoColon(m);
    DigitsHaveNoColon(s);
    assert h + ":" + m + ":" + s == h + ":" + (m + ":" + s);
    SplitAppend(h, m + ":" + s);
    SplitAppend(m, s);
    SplitField(s);
  }

  /** Reading an `H:MM:SS` rendering gives back its seconds. */
  lemma ClockRoundTrip(h: nat, m: nat, s: nat)
    requires m < 60 && s < 60
    ensures ParseClock(NatToString(h) + ":" + Pad2(m) + ":" + Pad2(s)) == Some(h * 3600 + m * 60 + s)
  {
    SplitClock(NatToString(h), Pad2(m), Pad2(s));
    ParseNatToString(h);
    ParsePad2(m);
    ParsePad2(s);
  }

  /** Without its hour field an `MM:SS` duration does not parse. */
  lemma MinutesSecondsNeedPadding(m: nat, s: nat)
    requires m < 60 && s < 60
    ensures ParseClock(Pad2(m) + ":" + Pad2(s)) == None
  {
    var a, b := Pad2(m), Pad2(s);
    DigitsHaveNoColon(a);
    DigitsHaveNoColon(b);
    SplitAppend(a, b);
    SplitField(b);
  }

  /** A five-character `MM:SS` duration is read as minutes and seconds. */
  lemma PaddedMinutesSeconds(m: nat, s: nat)
    requires m < 60 && s < 60
    ensures EpisodeSeconds(Episode(0, "", Pad2(m) + ":" + Pad2(s), 0, 1)) == Some(m * 60 + s)
  {
    var d := Pad2(m) + ":" + Pad2(s);
    assert PadDuration(d) == Pad2(0) + ":" + Pad2(m) + ":" + Pad2(s);
    SplitClock(Pad2(0), Pad2(m), Pad2(s));
    ParsePad2(0);
    ParsePad2(m);
    ParsePad2(s);
  }

  /** `pd.to_timedelta` over the whole column: it raises on the first duration that does not parse. */
  function ParseDurations(seen: seq<Episode>): (r: Result<seq<Listen>>)
    ensures r.Success? <==> forall i :: 0 <= i < |seen| ==> EpisodeSeconds(seen[i]).Some?
    ensures r.Failure? ==> r.error.BadDuration?
    ensures r.Success? ==> |r.value| == |seen| && forall i :: 0 <= i < |seen| ==>
      r.value[i] == Listen(seen[i].podcastId, seen[i].name, EpisodeSeconds(seen[i]).value, seen[i].playbackDate)
  {
    if seen == [] then Success([])
    else
      var e := seen[0];
      match EpisodeSeconds(e)
      case None => Failure(BadDuration(e.duration))
      case Some(sec) =>
        var rest :- ParseDurations(seen[1..]);
        Success([Listen(e.podcastId, e.name, sec, e.playbackDate)] + rest)
  }

  predicate RecentEnough(l: Listen) {
    Calendar.YearOf(l.playbackDate) >= FirstYear
  }

  /** The cut-off falls at midnight on 2018-01-01: a play one millisecond earlier is dropped. */
  lemma FirstYearCutOff(id: int, name: string, seconds: nat)
    ensures RecentEnough(Listen(id, name, seconds, 1_514_764_800_000))
    ensures !RecentEnough(Listen(id, name, seconds, 1_514_764_799_999))
  {
    Calendar.YearBoundaries();
    assert 1_514_764_800_000 / Calendar.DayMs == 17532;
    assert 1_514_764_799_999 / Calendar.DayMs == 17531;
    assert Calendar.YearOf(1_514_764_800_000) == Calendar.YearOfDay(17532);
    assert Calendar.YearOf(1_514_764_799_999) == Calendar.YearOfDay(17531);
  }

  /** The names of the podcasts whose id is `id`, in table order. */
  function Matches(podcasts: seq<Podcast>, id: int): (names: seq<string>)
    ensures forall n :: n in names <==> Podcast(id, n) in podcasts
  {
    if podcasts == [] then []
    else (if podcasts[0].id == id then [podcasts[0].name] else []) + Matches(podcasts[1..], id)
  }

  /** The rows a right join makes of one episode: one per matching podcast, or one without a podcast. */
  function JoinOne(podcasts: seq<Podcast>, l: Listen): seq<Play> {
    var m := Matches(podcasts, l.podcastId);
    if m == [] then [Play(None, l.name, l.seconds, l.playbackDate)]
    else seq(|m|, i requires 0 <= i < |m| => Play(Some(m[i]), l.name, l.seconds, l.playbackDate))
  }

  /** The row `p` is one the join makes of the episode `l`. */
  predicate Carries(podcasts: seq<Podcast>, p: Play, l: Listen) {
    && p.name == l.name && p.seconds == l.seconds && p.playbackDate == l.playbackDate
    && (p.podcast.None? <==> Matches(podcasts, l.podcastId) == [])
    && (p.podcast.Some? ==> Podcast(l.podcastId, p.podcast.value) in podcasts)
  }

  lemma JoinOneCarries(podcasts: seq<Podcast>, l: Listen)
    ensures |JoinOne(podcasts, l)| >= 1
    ensures forall p :: p in JoinOne(podcasts, l) ==> Carries(podcasts, p, l)
  {
    var m := Matches(podcasts, l.podcastId);
    if m != [] {
      forall p | p in JoinOne(podcasts, l)
        ensures Carries(podcasts, p, l)
      {
        var i :| 0 <= i < |m| && JoinOne(podcasts, l)[i] == p;
        assert m[i] in m;
      }
    }
  }

  /** `pd.merge(..., how='right')`: each episode's rows, in episode order. */
  function RightJoin(podcasts: seq<Podcast>, listens: seq<Listen>): (r: seq<Play>)
    ensures |r| >= |listens|
  {
    if listens == [] then []
    else
      JoinOneCarries(podcasts, listens[0]);
      JoinOne(podcasts, listens[0]) + RightJoin(podcasts, listens[1..])
  }

  /** Every row of the join is one the join makes of some episode. */
  lemma {:induction false} JoinRowsFromEpisodes(podcasts: seq<Podcast>, listens: seq<Listen>, p: Play)
    requires p in RightJoin(podcasts, listens)
    ensures exists l :: l in listens && Carries(podcasts, p, l)
  {
    JoinOneCarries(podcasts, listens[0]);
    if p !in JoinOne(podcasts, listens[0]) {
      JoinRowsFromEpisodes(podcasts, listens[1..], p);
      var l :| l in listens[1..] && Carries(podcasts, p, l);
      assert l in listens;
    }
  }

  /** The join keeps every episode: each has a row. */
  lemma {:induction false} JoinKeepsEveryEpisode(podcasts: seq<Podcast>, listens: seq<Listen>, l: Listen)
    requires l in listens
    ensures exists p :: p in RightJoin(podcasts, listens) && Carries(podcasts, p, l)
  {
    var head := JoinOne(podcasts, listens[0]);
    var rest := RightJoin(podcasts, listens[1..]);
    assert RightJoin(podcasts, listens) == head + rest;
    JoinOneCarries(podcasts, listens[0]);
    if l == listens[0] {
      assert head[0] in head + rest;
    } else {
      assert l in listens[1..];
      JoinKeepsEveryEpisode(podcasts, listens[1..], l);
      var p :| p in rest && Carries(podcasts, p, l);
      assert p in head + rest;
    }
  }

  predicate UniqueIds(podcasts: seq<Podcast>) {
    forall i, j :: 0 <= i < j < |podcasts| ==> podcasts[i].id != podcasts[j].id
  }

  /** The name of the podcast with id `id`, if any. */
  function PodcastName(podcasts: seq<Podcast>, id: int): Option<string> {
    var m := Matches(podcasts, id);
    if m == [] then None else Some(m[0])
  }

  lemma {:induction false} NoMatches(podcasts: seq<Podcast>, id: int)
    requires forall k :: 0 <= k < |podcasts| ==> podcasts[k].id != id
    ensures Matches(podcasts, id) == []
  {
    if podcasts != [] {
      NoMatches(podcasts[1..], id);
    }
  }

  lemma {:induction false} UniqueMatch(podcasts: seq<Podcast>, id: int)
    requires UniqueIds(podcasts)
    ensures |Matches(podcasts, id)| <= 1
  {
    if podcasts != [] {
      UniqueMatch(podcasts[1..], id);
      if podcasts[0].id == id {
        forall k | 0 <= k < |podcasts[1..]|
          ensures podcasts[1..][k].id != id
        {
          assert podcasts[1..][k] == podcasts[k + 1];
        }
        NoMatches(podcasts[1..], id);
      }
    }
  }

  /** With one podcast per id, the join keeps one row per episode, in order. */
  lemma {:induction false} JoinUniqueIds(podcasts: seq<Podcast>, listens: seq<Listen>)
    requires UniqueIds(podcasts)
    ensures var r := RightJoin(podcasts, listens);
      && |r| == |listens|
      && forall i :: 0 <= i < |listens| ==>
        r[i] == Play(PodcastName(podcasts, listens[i].podcastId), listens[i].name, listens[i].seconds, listens[i].playbackDate)
  {
    if listens != [] {
      UniqueMatch(podcasts, listens[0].podcastId);
      JoinUniqueIds(podcasts, listens[1..]);
      var head := JoinOne(podcasts, listens[0]);
      assert |head| == 1;
      var rest := RightJoin(podcasts, listens[1..]);
      forall i | 1 <= i < |listens|
        ensures (head + rest)[i] == rest[i - 1]
      {
      }
    }
  }

  /** Sorting key for `sort_values(by='playbackDate', ascending=False)`. */
  function Recency(p: Play): Option<int> {
    Some(-p.playbackDate)
  }

  /** The episode row `e` is shown as the play `p`, with a podcast of the episode's id or none when no podcast has it. */
  predicate Shows(podcasts: seq<Podcast>, p: Play, e: Episode) {
    && p.name == e.name && p.playbackDate == e.playbackDate && EpisodeSeconds(e) == Some(p.seconds)
    && (p.podcast.None? <==> Matches(podcasts, e.podcastId) == [])
    && (p.podcast.Some? ==> Podcast(e.podcastId, p.podcast.value) in podcasts)
  }

  /** The seen episodes' listens from 2018 on, in table order; the first duration that does not parse fails. */
  function RecentListens(episodes: seq<Episode>): Result<seq<Listen>> {
    var listens :- ParseDurations(Filter(episodes, IsSeen));
    Success(Filter(listens, RecentEnough))
  }

  /**
   * `load_podcast_df`: the seen episodes, their durations parsed (the first
   * one that does not parse fails the load), those played before 2018
   * dropped, joined to their podcasts and ordered by playback, latest first.
   */
  function LoadPodcastFrame(podcasts: seq<Podcast>, episodes: seq<Episode>): (r: Result<seq<Play>>)
    ensures r.Success? <==> forall e :: e in episodes && IsSeen(e) ==> EpisodeSeconds(e).Some?
    ensures r.Failure? ==> r.error.BadDuration?
    ensures r.Success? ==> forall i, j :: 0 <= i < j < |r.value| ==> r.value[i].playbackDate >= r.value[j].playbackDate
    ensures r.Success? ==> forall p :: p in r.value ==>
      Calendar.YearOf(p.playbackDate) >= FirstYear && exists e :: e in episodes && IsSeen(e) && Shows(podcasts, p, e)
    ensures r.Success? ==> forall e :: e in episodes && IsSeen(e) && Calendar.YearOf(e.playbackDate) >= FirstYear ==>
      exists p :: p in r.value && Shows(podcasts, p, e)
    ensures r.Success? <==> RecentListens(episodes).Success?
    ensures r.Success? ==> multiset(r.value) == multiset(RightJoin(podcasts, RecentListens(episodes).value))
  {
    var seen := Filter(episodes, IsSeen);
    var parsed := ParseDurations(seen);
    assert parsed.Success? <==> forall e :: e in episodes && IsSeen(e) ==> EpisodeSeconds(e).Some? by {
      if parsed.Success? {
        forall e | e in episodes && IsSeen(e)
          ensures EpisodeSeconds(e).Some?
        {
          assert e in seen;
        }
      }
    }
    if parsed.Failure? then Failure(parsed.error)
    else
      var listens := parsed.value;
      var recent := Filter(listens, RecentEnough);
      var joined := RightJoin(podcasts, recent);
      var sorted := SortBy(joined, Recency);
      LoadFacts(podcasts, episodes, seen, listens, recent, joined, sorted);
      Success(sorted)
  }

  /**
   * With one podcast per id the frame has exactly one row per seen episode
   * from 2018 on: the join neither drops nor repeats an episode.
   */
  lemma LoadRowPerEpisode(podcasts: seq<Podcast>, episodes: seq<Episode>)
    requires UniqueIds(podcasts) && RecentListens(episodes).Success?
    ensures LoadPodcastFrame(podcasts, episodes).Success?
    ensures |LoadPodcastFrame(podcasts, episodes).value| == |RecentListens(episodes).value|
  {
    var r := LoadPodcastFrame(podcasts, episodes).value;
    var joined := RightJoin(podcasts, RecentListens(episodes).value);
    JoinUniqueIds(podcasts, RecentListens(episodes).value);
    assert |multiset(r)| == |multiset(joined)|;
  }

  lemma LoadFacts(podcasts: seq<Podcast>, episodes: seq<Episode>, seen: seq<Episode>, listens: seq<Listen>,
                  recent: seq<Listen>, joined: seq<Play>, sorted: seq<Play>)
    requires seen == Filter(episodes, IsSeen)
    requires ParseDurations(seen) == Success(listens)
    requires recent == Filter(listens, RecentEnough)
    requires joined == RightJoin(podcasts, recent)
    requires sorted == SortBy(joined, Recency)
    ensures forall i, j :: 0 <= i < j < |sorted| ==> sorted[i].playbackDate >= sorted[j].playbackDate
    ensures forall p :: p in sorted ==>
      Calendar.YearOf(p.playbackDate) >= FirstYear && exists e :: e in episodes && IsSeen(e) && Shows(podcasts, p, e)
    ensures forall e :: e in episodes && IsSeen(e) && Calendar.YearOf(e.playbackDate) >= FirstYear ==>
      exists p :: p in sorted && Shows(podcasts, p, e)
  {
    forall i, j | 0 <= i < j < |sorted|
      ensures sorted[i].playbackDate >= sorted[j].playbackDate
    {
      assert KeyLe(Recency(sorted[i]), Recency(sorted[j]));
    }
    forall p | p in sorted
      ensures Calendar.YearOf(p.playbackDate) >= FirstYear && exists e :: e in episodes && IsSeen(e) && Shows(podcasts, p, e)
    {
      PlaySource(podcasts, episodes, seen, listens, recent, joined, sorted, p);
    }
    forall e | e in episodes && IsSeen(e) && Calendar.YearOf(e.playbackDate) >= FirstYear
      ensures exists p :: p in sorted && Shows(podcasts, p, e)
    {
      EpisodeShown(podcasts, episodes, seen, listens, recent, joined, sorted, e);
    }
  }

  lemma PlaySource(podcasts: seq<Podcast>, episodes: seq<Episode>, seen: seq<Episode>, listens: seq<Listen>,
                   recent: seq<Listen>, joined: seq<Play>, sorted: seq<Play>, p: Play)
    requires seen == Filter(episodes, IsSeen)
    requires ParseDurations(seen) == Success(listens)
    requires recent == Filter(listens, RecentEnough)
    requires joined == RightJoin(podcasts, recent)
    requires multiset(sorted) == multiset(joined)
    requires p in sorted
    ensures Calendar.YearOf(p.playbackDate) >= FirstYear && exists e :: e in episodes && IsSeen(e) && Shows(podcasts, p, e)
  {
    assert p in multiset(joined);
    assert p in joined;
    JoinRowsFromEpisodes(podcasts, recent, p);
    var l :| l in recent && Carries(podcasts, p, l);
    assert l in listens && RecentEnough(l);
    ListenSource(seen, listens, l);
    var e :| e in seen && e.podcastId == l.podcastId && e.name == l.name && e.playbackDate == l.playbackDate && EpisodeSeconds(e) == Some(l.seconds);
    assert e in episodes && IsSeen(e) && Shows(podcasts, p, e);
  }

  lemma EpisodeShown(podcasts: seq<Podcast>, episodes: seq<Episode>, seen: seq<Episode>, listens: seq<Listen>,
                     recent: seq<Listen>, joined: seq<Play>, sorted: seq<Play>, e: Episode)
    requires seen == Filter(episodes, IsSeen)
    requires ParseDurations(seen) == Success(listens)
    requires recent == Filter(listens, RecentEnough)
    requires joined == RightJoin(podcasts, recent)
    requires multiset(sorted) == multiset(joined)
    requires e in episodes && IsSeen(e) && Calendar.YearOf(e.playbackDate) >= FirstYear
    ensures exists p :: p in sorted && Shows(podcasts, p, e)
  {
    assert e in seen;
    var l := ListenOf(seen, listens, e);
    assert RecentEnough(l);
    assert l in recent;
    JoinKeepsEveryEpisode(podcasts, recent, l);
    var p :| p in joined && Carries(podcasts, p, l);
    assert p in multiset(sorted);
    assert p in sorted;
    assert Shows(podcasts, p, e);
  }

  /** Every parsed listen comes from a seen episode with the same name, instant and duration. */
  lemma ListenSource(seen: seq<Episode>, listens: seq<Listen>, l: Listen)
    requires ParseDurations(seen) == Success(listens)
    requires l in listens
    ensures exists e :: e in seen && e.podcastId == l.podcastId && e.name == l.name && e.playbackDate == l.playbackDate && EpisodeSeconds(e) == Some(l.seconds)
  {
    var m :| 0 <= m < |listens| && listens[m] == l;
    assert seen[m] in seen;
  }

  /** The listen parsed from a seen episode. */
  lemma ListenOf(seen: seq<Episode>, listens: seq<Listen>, e: Episode) returns (l: Listen)
    requires ParseDurations(seen) == Success(listens)
    requires e in seen
    ensures l in listens && l.podcastId == e.podcastId && l.name == e.name && l.playbackDate == e.playbackDate && EpisodeSeconds(e) == Some(l.seconds)
  {
    var m :| 0 <= m < |seen| && seen[m] == e;
    l := listens[m];
  }

  // ---------------------------------------------------------------------
  // The year tabs

  function YearOfPlay(p: Play): int {
    Calendar.YearOf(p.playbackDate)
  }

  /** Sorting key for `sort_values(ascending=False)` on years. */
  function Descending(y: int): Option<int> {
    Some(-y)
  }

  /** The year of every play, in frame order. */
  function PlayYears(plays: seq<Play>): (years: seq<int>)
    ensures |years| == |plays|
    ensures forall i :: 0 <= i < |plays| ==> years[i] == YearOfPlay(plays[i])
  {
    seq(|plays|, i requires 0 <= i < |plays| => YearOfPlay(plays[i]))
  }

  /** The tabs: every year with a play, once each, latest first. */
  function Years(plays: seq<Play>): (r: seq<int>)
    ensures forall i, j :: 0 <= i < j < |r| ==> r[i] > r[j]
    ensures forall y :: y in r <==> exists p :: p in plays && YearOfPlay(p) == y
  {
    var distinct := Dedup(PlayYears(plays));
    var sorted := SortBy(distinct, Descending);
    YearsDescending(distinct, sorted);
    forall y
      ensures y in sorted <==> exists p :: p in plays && YearOfPlay(p) == y
    {
      YearsMember(plays, distinct, sorted, y);
    }
    sorted
  }

  lemma YearsDescending(distinct: seq<int>, sorted: seq<int>)
    requires NoDuplicates(distinct)
    requires sorted == SortBy(distinct, Descending)
    ensures forall i, j :: 0 <= i < j < |sorted| ==> sorted[i] > sorted[j]
  {
    NoDuplicatesPermutation(distinct, sorted);
    forall i, j | 0 <= i < j < |sorted|
      ensures sorted[i] > sorted[j]
    {
      assert KeyLe(Descending(sorted[i]), Descending(sorted[j]));
      assert sorted[i] != sorted[j];
      assert sorted[i] >= sorted[j];
    }
  }

  lemma YearsMember(plays: seq<Play>, distinct: seq<int>, sorted: seq<int>, y: int)
    requires distinct == Dedup(PlayYears(plays))
    requires multiset(sorted) == multiset(distinct)
    ensures y in sorted <==> exists p :: p in plays && YearOfPlay(p) == y
  {
    var years := PlayYears(plays);
    assert y in sorted <==> y in multiset(sorted);
    assert y in distinct <==> y in multiset(distinct);
    if y in years {
      var i :| 0 <= i < |years| && years[i] == y;
      assert plays[i] in plays;
    }
    if p :| p in plays && YearOfPlay(p) == y {
      var i :| 0 <= i < |plays| && plays[i] == p;
      assert years[i] == y;
    }
  }

  /** The seconds listened in year `y`. */
  function YearSeconds(plays: seq<Play>, y: int): nat {
    if plays == [] then 0
    else (if YearOfPlay(plays[0]) == y then plays[0].seconds else 0) + YearSeconds(plays[1..], y)
  }

  /** The year total in whole hours, truncated. */
  function YearHours(plays: seq<Play>, y: int): (h: nat)
    ensures h * 3600 <= YearSeconds(plays, y) < h * 3600 + 3600
  {
    YearSeconds(plays, y) / 3600
  }

  /** The metric's delta: this year's whole hours minus last year's, within an hour of the exact difference. */
  function YearDelta(plays: seq<Play>, y: int): (d: int)
    ensures YearSeconds(plays, y) - YearSeconds(plays, y - 1) - 3600 < d * 3600
    ensures d * 3600 < YearSeconds(plays, y) - YearSeconds(plays, y - 1) + 3600
  {
    YearHours(plays, y) - YearHours(plays, y - 1)
  }

  /** Plays landing in another year do not change a year's total. */
  lemma {:induction false} YearSecondsOtherYear(plays: seq<Play>, p: Play, y: int)
    requires YearOfPlay(p) != y
    ensures YearSeconds(plays + [p], y) == YearSeconds(plays, y)
  {
    if plays != [] {
      assert (plays + [p])[1..] == plays[1..] + [p];
      YearSecondsOtherYear(plays[1..], p, y);
    } else {
      assert [p][1..] == [];
    }
  }

  // ---------------------------------------------------------------------
  // Yearly top 10

  /** The podcasts played in year `y`; plays without a podcast are not grouped. */
  function PodcastsIn(plays: seq<Play>, y: int): (r: seq<string>)
    ensures NoDuplicates(r)
    ensures forall n :: n in r <==> exists p :: p in plays && YearOfPlay(p) == y && p.podcast == Some(n)
  {
    if plays == [] then []
    else
      var rest := PodcastsIn(plays[1..], y);
      var p := plays[0];
      assert forall q :: q in plays <==> q == p || q in plays[1..];
      if YearOfPlay(p) == y && p.podcast.Some? && p.podcast.value !in rest then [p.podcast.value] + rest
      else rest
  }

  /** The seconds listened to podcast `n` in year `y`. */
  function PodcastSeconds(plays: seq<Play>, y: int, n: string): nat {
    if plays == [] then 0
    else
      var p := plays[0];
      (if YearOfPlay(p) == y && p.podcast == Some(n) then p.seconds else 0) + PodcastSeconds(plays[1..], y, n)
  }

  datatype Total = Total(podcast: string, seconds: nat)

  /** One line of the top-ten table: a podcast and its hours that year, truncated. */
  datatype Ranked = Ranked(podcast: string, hours: nat)

  function ByTotal(t: Total): Option<int> {
    Some(-(t.seconds as int))
  }

  function Totals(plays: seq<Play>, y: int): (r: seq<Total>)
    ensures |r| == |PodcastsIn(plays, y)|
    ensures NoDuplicates(r)
    ensures forall t :: t in r <==> t.podcast in PodcastsIn(plays, y) && t.seconds == PodcastSeconds(plays, y, t.podcast)
  {
    var names := PodcastsIn(plays, y);
    var r := seq(|names|, i requires 0 <= i < |names| => Total(names[i], PodcastSeconds(plays, y, names[i])));
    forall t: Total | t.podcast in names && t.seconds == PodcastSeconds(plays, y, t.podcast)
      ensures t in r
    {
      var i :| 0 <= i < |names| && names[i] == t.podcast;
      assert r[i] == t;
    }
    r
  }

  /**
   * The yearly top ten: the podcasts of the year by total listening,
   * largest first, at most ten of them, each once; every podcast left out
   * was listened to no more than any podcast shown.
   */
  function TopTen(plays: seq<Play>, y: int): (r: seq<Ranked>)
    ensures |r| == if |PodcastsIn(plays, y)| < TopCount then |PodcastsIn(plays, y)| else TopCount
    ensures forall i :: 0 <= i < |r| ==>
      r[i].podcast in PodcastsIn(plays, y) && r[i].hours == PodcastSeconds(plays, y, r[i].podcast) / 3600
    ensures forall i, j :: 0 <= i < j < |r| ==> r[i].hours >= r[j].hours
    ensures forall i, j :: 0 <= i < j < |r| ==> r[i].podcast != r[j].podcast
    ensures forall n :: n in PodcastsIn(plays, y) && (forall i :: 0 <= i < |r| ==> r[i].podcast != n) ==>
      forall i :: 0 <= i < |r| ==> PodcastSeconds(plays, y, n) <= PodcastSeconds(plays, y, r[i].podcast)
  {
    var sorted := SortBy(Totals(plays, y), ByTotal);
    var count := if |sorted| < TopCount then |sorted| else TopCount;
    var r := Leading(sorted, count);
    TopTenFacts(plays, y, sorted, r);
    r
  }

  /** The first `count` totals, in whole hours. */
  function Leading(sorted: seq<Total>, count: nat): (r: seq<Ranked>)
    requires count <= |sorted|
    ensures |r| == count
    ensures forall i :: 0 <= i < count ==> r[i].podcast == sorted[i].podcast && r[i].hours == sorted[i].seconds / 3600
  {
    seq(count, i requires 0 <= i < count => Ranked(sorted[i].podcast, sorted[i].seconds / 3600))
  }

  lemma TopTenFacts(plays: seq<Play>, y: int, sorted: seq<Total>, r: seq<Ranked>)
    requires sorted == SortBy(Totals(plays, y), ByTotal)
    requires r == Leading(sorted, if |sorted| < TopCount then |sorted| else TopCount)
    ensures forall i :: 0 <= i < |r| ==>
      r[i].podcast in PodcastsIn(plays, y) && r[i].hours == PodcastSeconds(plays, y, r[i].podcast) / 3600
    ensures forall i, j :: 0 <= i < j < |r| ==> r[i].hours >= r[j].hours
    ensures forall i, j :: 0 <= i < j < |r| ==> r[i].podcast != r[j].podcast
    ensures forall n :: n in PodcastsIn(plays, y) && (forall i :: 0 <= i < |r| ==> r[i].podcast != n) ==>
      forall i :: 0 <= i < |r| ==> PodcastSeconds(plays, y, n) <= PodcastSeconds(plays, y, r[i].podcast)
  {
    RankedTotals(plays, y, sorted);
    forall n | n in PodcastsIn(plays, y) && (forall i :: 0 <= i < |r| ==> r[i].podcast != n)
      ensures forall i :: 0 <= i < |r| ==> PodcastSeconds(plays, y, n) <= PodcastSeconds(plays, y, r[i].podcast)
    {
      LeftOutListenedLess(plays, y, sorted, r, n);
    }
  }

  /** A podcast of the year missing from the top was listened to no more than any podcast in it. */
  lemma LeftOutListenedLess(plays: seq<Play>, y: int, sorted: seq<Total>, r: seq<Ranked>, n: string)
    requires sorted == SortBy(Totals(plays, y), ByTotal)
    requires |r| <= |sorted|
    requires forall i :: 0 <= i < |r| ==> r[i].podcast == sorted[i].podcast
    requires n in PodcastsIn(plays, y)
    requires forall i :: 0 <= i < |r| ==> r[i].podcast != n
    ensures forall i :: 0 <= i < |r| ==> PodcastSeconds(plays, y, n) <= PodcastSeconds(plays, y, r[i].podcast)
  {
    var k := RankOf(plays, y, sorted, n);
    assert sorted[k].podcast == n;
    assert k >= |r|;
  }

  /** The totals by decreasing listening: each podcast of the year once, with its total. */
  lemma RankedTotals(plays: seq<Play>, y: int, sorted: seq<Total>)
    requires sorted == SortBy(Totals(plays, y), ByTotal)
    ensures forall i :: 0 <= i < |sorted| ==>
      sorted[i].podcast in PodcastsIn(plays, y) && sorted[i].seconds == PodcastSeconds(plays, y, sorted[i].podcast)
    ensures forall i, j :: 0 <= i < j < |sorted| ==> sorted[i].seconds >= sorted[j].seconds
    ensures forall i, j :: 0 <= i < j < |sorted| ==> sorted[i].seconds / 3600 >= sorted[j].seconds / 3600
    ensures forall i, j :: 0 <= i < j < |sorted| ==> sorted[i].podcast != sorted[j].podcast
  {
    TotalsInRanking(plays, y, sorted);
    TotalsDescending(plays, y, sorted);
    TotalsDistinct(plays, y, sorted);
  }

  lemma TotalsInRanking(plays: seq<Play>, y: int, sorted: seq<Total>)
    requires sorted == SortBy(Totals(plays, y), ByTotal)
    ensures forall i :: 0 <= i < |sorted| ==> sorted[i] in Totals(plays, y)
  {
    forall i | 0 <= i < |sorted|
      ensures sorted[i] in Totals(plays, y)
    {
      InMultiset(sorted, Totals(plays, y), i);
    }
  }

  lemma TotalsDescending(plays: seq<Play>, y: int, sorted: seq<Total>)
    requires sorted == SortBy(Totals(plays, y), ByTotal)
    ensures forall i, j :: 0 <= i < j < |sorted| ==> sorted[i].seconds >= sorted[j].seconds
    ensures forall i, j :: 0 <= i < j < |sorted| ==> sorted[i].seconds / 3600 >= sorted[j].seconds / 3600
  {
    forall i, j | 0 <= i < j < |sorted|
      ensures sorted[i].seconds >= sorted[j].seconds
      ensures sorted[i].seconds / 3600 >= sorted[j].seconds / 3600
    {
      assert KeyLe(ByTotal(sorted[i]), ByTotal(sorted[j]));
      DivMonotone(sorted[j].seconds, sorted[i].seconds);
    }
  }

  lemma TotalsDistinct(plays: seq<Play>, y: int, sorted: seq<Total>)
    requires sorted == SortBy(Totals(plays, y), ByTotal)
    ensures forall i, j :: 0 <= i < j < |sorted| ==> sorted[i].podcast != sorted[j].podcast
  {
    var totals := Totals(plays, y);
    NoDuplicatesPermutation(totals, sorted);
    TotalsInRanking(plays, y, sorted);
    forall i, j | 0 <= i < j < |sorted|
      ensures sorted[i].podcast != sorted[j].podcast
    {
      assert sorted[i] in totals && sorted[j] in totals;
      assert sorted[i] != sorted[j];
    }
  }

  lemma DivMonotone(a: nat, b: nat)
    requires a <= b
    ensures a / 3600 <= b / 3600
  {
  }

  /** Where a podcast of the year stands in the ranking; every podcast before it was listened to at least as much. */
  lemma RankOf(plays: seq<Play>, y: int, sorted: seq<Total>, n: string) returns (k: nat)
    requires sorted == SortBy(Totals(plays, y), ByTotal)
    requires n in PodcastsIn(plays, y)
    ensures k < |sorted| && sorted[k].podcast == n
    ensures forall i :: 0 <= i < k ==> PodcastSeconds(plays, y, n) <= PodcastSeconds(plays, y, sorted[i].podcast)
  {
    RankedTotals(plays, y, sorted);
    var t := Total(n, PodcastSeconds(plays, y, n));
    assert t in Totals(plays, y);
    assert t in multiset(sorted);
    assert t in sorted;
    k :| 0 <= k < |sorted| && sorted[k] == t;
  }
}
