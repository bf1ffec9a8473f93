/** The section builders of data_parser.py. Each turns the raw values of one
    report section (artist names, song names, play durations, timestamps)
    into a container of headlines, tables and prose.

    Python's set iteration order reaches the tables through
    `count_individuals`, so every builder takes the iteration order as an
    argument, as `Tallies.CountIndividuals` does. Floating-point arithmetic,
    `round` and the printing of floats are not modelled: the text they
    produce is supplied by the `FloatText` argument as a function of the
    integers it is computed from. */
module Sections {
  import opened Text
  import opened Decimal
  import opened Tallies
  import opened Ranking
  import opened Html
  import opened Rounding

  /** The printed form of the rounded floats in the prose. */
  datatype FloatText = FloatText(
    /** `round(a / b, ndigits=2)` */
    quotient: (nat, nat) -> string,
    /** `round(a / b * 100, ndigits=2)` */
    percentage: (nat, nat) -> string,
    /** the average of the durations in minutes, rounded to 2 digits */
    averageMinutes: seq<nat> -> string,
    /** `round(ms / 1000 / 60, ndigits=d)` for the arguments `(ms, d)` */
    minutes: (nat, nat) -> string,
    /** `100 - round(days / 365, ndigits=2)` */
    yearShare: nat -> string)

  // ---------------------------------------------------------------------
  // Fixed texts

  const ArtistHead: seq<Datum> := [Str("Artist"), Str("Total Streams")]
  const SongHead: seq<Datum> := [Str("Song"), Str("Total Streams")]
  const DateHead: seq<Datum> := [Str("Date"), Str("Streams")]

  /** The chart page the dates section embeds. */
  const ChartSource: string := "stream_chart.html"

  /** U+1F469 U+200D U+1F3A8, the woman-artist emoji. */
  const ArtistEmoji: string := "\U{1F469}\U{200D}\U{1F3A8}"
  /** U+1F3B5, the musical-note emoji. */
  const SongEmoji: string := "\U{1F3B5}"
  /** U+231A, the watch emoji. */
  const WatchEmoji: string := "\U{231A}"

  // The fixed pieces of the headlines and of the prose, in the order they
  // appear; the values are printed between them.

  const TopPrefix: string := "Top "
  const TopArtistsSuffix: string := " Streamed Artists "
  const LeastArtistsSuffix: string := " Least Streamed Artists"
  const TopSongsSuffix: string := " Streamed Songs "
  const PlaytimeTitle: string := "Your Playtime "
  const DatesTitle: string := "Top 10 Streams per Day"

  const ArtistsText0: string := "\n        You have streamed <strong>"
  const ArtistsText1: string := "</strong> \n        different artists and clicked the play button <strong>"
  const ArtistsText2: string := "</strong> times.\n        This means that in average you streamed every single artist <strong>"
  const ArtistsText3: string := "</strong> time(s).\n        The streams you generated listening to your top "
  const ArtistsText4: string := " most listened artists take up <strong>"
  const ArtistsText5: string := "%\n        </strong> of your total streams.\n        "

  const SongsText0: string := "\n        In average you listened to an individual song \n        <strong>"
  const SongsText1: string := "</strong> time(s).\n        "

  const PlaytimeText0: string := "Your average stream time per song streamed is <strong>"
  const PlaytimeText1: string := " minutes</strong>."
  const ExtremesText0: string := "\n        Additionally your longest stream took you about <strong>"
  const ExtremesText1: string := " \n        minute(s)</strong> while your shortest stream was just <strong>"
  const ExtremesText2: string := "\n        </strong> minute(s) long.\n        "

  const DatesText0: string := "\n        You streamed from Spotify on <strong>"
  const DatesText1: string := "</strong> different days. Wow that's about \n        "
  const DatesText2: string := "% of a year.\n        "

  // Each child is built by a function of its own, so that the builders'
  // contracts can name it without spelling out its text.

  function TopArtistsHeadline(k: nat): Component
  {
    Headline(TopPrefix + NatToString(k) + TopArtistsSuffix + ArtistEmoji, 2)
  }

  function LeastArtistsHeadline(l: nat): Component
  {
    Headline(NatToString(l) + LeastArtistsSuffix, 2)
  }

  function TopSongsHeadline(k: nat): Component
  {
    Headline(TopPrefix + NatToString(k) + TopSongsSuffix + SongEmoji, 2)
  }

  function PlaytimeHeadline(): Component
  {
    Headline(PlaytimeTitle + WatchEmoji, 2)
  }

  function DatesHeadline(): Component
  {
    Headline(DatesTitle, 2)
  }

  function ChartFrame(): Component
  {
    IFrame(ChartSource)
  }

  function ArtistsSummary(distinct: nat, total: nat, average: string, k: nat, share: string): Component
  {
    Paragraph(ArtistsText0 + NatToString(distinct) + ArtistsText1 + NatToString(total) + ArtistsText2
              + average + ArtistsText3 + NatToString(k) + ArtistsText4 + share + ArtistsText5,
              false)
  }

  function SongsSummary(average: nat): Component
  {
    Paragraph(SongsText0 + NatToString(average) + SongsText1, false)
  }

  function PlaytimeAverage(average: string): Component
  {
    Paragraph(PlaytimeText0 + average + PlaytimeText1, false)
  }

  function PlaytimeExtremes(longest: string, shortest: string): Component
  {
    Paragraph(ExtremesText0 + longest + ExtremesText1 + shortest + ExtremesText2, false)
  }

  function DatesSummary(days: nat, share: string): Component
  {
    Paragraph(DatesText0 + NatToString(days) + DatesText1 + share + DatesText2, false)
  }

  // ---------------------------------------------------------------------
  // Tables of counted pairs

  /** `add_row((key, count))`: the tuple becomes a row of two data cells. */
  function TallyCells(t: Tally<string>): seq<Datum>
  {
    [Str(t.key), Num(t.count)]
  }

  /** `t` is a table under `head` listing the pairs `ts`, one row each, in order. */
  predicate ListsTallies(t: Component, head: seq<Datum>, ts: seq<Tally<string>>)
  {
    && t.Table?
    && t.head == RowOf(head, false)
    && |t.body| == |ts|
    && (forall i {:trigger t.body[i]} :: 0 <= i < |ts| ==> t.body[i] == RowOf(TallyCells(ts[i]), true))
  }

  /** A new table under `head` with `add_row` called once per pair, in order. */
  function TallyTable(head: seq<Datum>, ts: seq<Tally<string>>): (t: Component)
    ensures ListsTallies(t, head, ts)
  {
    if |ts| == 0 then NewTable(head)
    else AddRow(TallyTable(head, ts[..|ts| - 1]), TallyCells(ts[|ts| - 1]))
  }

  /** The pairs with their keys rewritten by `relabel`, counts kept. */
  function Relabel(ts: seq<Tally<string>>, relabel: string -> string): (r: seq<Tally<string>>)
    ensures |r| == |ts|
    ensures Counts(r) == Counts(ts)
    ensures forall i :: 0 <= i < |ts| ==> r[i].key == relabel(ts[i].key)
  {
    if |ts| == 0 then [] else [Tally(relabel(ts[0].key), ts[0].count)] + Relabel(ts[1..], relabel)
  }

  // ---------------------------------------------------------------------
  // The builders

  /** The prose of the artists section. `len(count_of_artists)` is the
      number of distinct artists. */
  function ArtistsProse(artists: seq<string>, order: seq<string>, k: nat, fl: FloatText): Component
    requires Enumerates(order, artists)
    requires k < |Elements(artists)|
  {
    var ranked := Rank(artists, order);
    ArtistsSummary(|ranked|, |artists|, fl.quotient(|artists|, |ranked|), k,
                   fl.percentage(Total(MostFirst(ranked, k)), |artists|))
  }

  /** `parse_artists(artists, k, l)`. Python indexes the ranked list at
      0..k and at -1..-(l + 1), so both need at least that many distinct
      artists; otherwise it raises `IndexError`. */
  function ParseArtists(artists: seq<string>, order: seq<string>, k: nat, l: nat, fl: FloatText)
    : (c: Component)
    requires Enumerates(order, artists)
    requires k < |Elements(artists)| && l < |Elements(artists)|
    ensures c.Container?
    ensures c.children
            == [TopArtistsHeadline(k),
                TallyTable(ArtistHead, MostFirst(Rank(artists, order), k)),
                ArtistsProse(artists, order, k, fl),
                LeastArtistsHeadline(l),
                TallyTable(ArtistHead, LeastFirst(Rank(artists, order), l))]
  {
    var ranked := Rank(artists, order);
    Assemble([TopArtistsHeadline(k),
              TallyTable(ArtistHead, MostFirst(ranked, k)),
              ArtistsProse(artists, order, k, fl),
              LeastArtistsHeadline(l),
              TallyTable(ArtistHead, LeastFirst(ranked, l))])
  }

  /** The first table of the artists section lists the `k + 1` most
      streamed artists, most streamed first, each with its number of
      streams; no artist left out was streamed more often than the last one
      listed. */
  lemma TopArtistsTable(artists: seq<string>, order: seq<string>, k: nat, l: nat, fl: FloatText)
    requires Enumerates(order, artists)
    requires k < |Elements(artists)| && l < |Elements(artists)|
    ensures ListsTallies(ParseArtists(artists, order, k, l, fl).children[1], ArtistHead,
                         MostFirst(Rank(artists, order), k))
    ensures IsTop(MostFirst(Rank(artists, order), k), artists)
  {
    RankIsRanking(artists, order);
    TopOfRanking(Rank(artists, order), artists, k);
  }

  /** The second table lists the `l + 1` least streamed artists, least
      streamed first; no artist left out was streamed less often than the
      last one listed. */
  lemma LeastArtistsTable(artists: seq<string>, order: seq<string>, k: nat, l: nat, fl: FloatText)
    requires Enumerates(order, artists)
    requires k < |Elements(artists)| && l < |Elements(artists)|
    ensures ListsTallies(ParseArtists(artists, order, k, l, fl).children[4], ArtistHead,
                         LeastFirst(Rank(artists, order), l))
    ensures IsBottom(LeastFirst(Rank(artists, order), l), artists)
  {
    RankIsRanking(artists, order);
    BottomOfRanking(Rank(artists, order), artists, l);
  }

  /** The figures of the artists prose: the number of distinct artists, the
      number of streams, and the streams of the top `k + 1` artists, which
      lie between `k + 1` and the number of streams, so the printed share
      is at most a hundred percent. */
  lemma ArtistsFigures(artists: seq<string>, order: seq<string>, k: nat, fl: FloatText)
    requires Enumerates(order, artists)
    requires k < |Elements(artists)|
    ensures var top := Total(MostFirst(Rank(artists, order), k));
            && ArtistsProse(artists, order, k, fl)
               == ArtistsSummary(|Elements(artists)|, |artists|, fl.quotient(|artists|, |Elements(artists)|), k,
                                 fl.percentage(top, |artists|))
            && k + 1 <= top <= |artists|
  {
    TopStreams(artists, order, k);
  }

  /** The set's iteration order changes nothing in the artists prose: it
      depends on the ranking only through the total of the top counts, and
      those counts do not depend on the order (`TopCountsIndependent`;
      `LeastCountsIndependent` gives the same for the bottom table). Only
      the keys of tied artists can trade places in the tables. */
  lemma ArtistsOrderIndependent(artists: seq<string>, o1: seq<string>, o2: seq<string>, k: nat, fl: FloatText)
    requires Enumerates(o1, artists) && Enumerates(o2, artists)
    requires k < |Elements(artists)|
    ensures ArtistsProse(artists, o1, k, fl) == ArtistsProse(artists, o2, k, fl)
  {
    TopCountsIndependent(artists, o1, o2, k);
  }

  /** `parse_songs(songs, k)`. The average in the prose is
      `round(sum_of_streams / amount_of_songs)`. */
  function ParseSongs(songs: seq<string>, order: seq<string>, k: nat): (c: Component)
    requires Enumerates(order, songs)
    requires k < |Elements(songs)|
    ensures c.Container?
    ensures c.children
            == [TopSongsHeadline(k),
                TallyTable(SongHead, MostFirst(Rank(songs, order), k)),
                SongsSummary(RoundHalfEven(Total(Rank(songs, order)), |Elements(songs)|))]
  {
    var ranked := Rank(songs, order);
    Assemble([TopSongsHeadline(k),
              TallyTable(SongHead, MostFirst(ranked, k)),
              SongsSummary(RoundHalfEven(Total(ranked), |ranked|))])
  }

  /** The songs table lists the `k + 1` most streamed songs, as the top
      artists table does. */
  lemma TopSongsTable(songs: seq<string>, order: seq<string>, k: nat)
    requires Enumerates(order, songs)
    requires k < |Elements(songs)|
    ensures ListsTallies(ParseSongs(songs, order, k).children[1], SongHead, MostFirst(Rank(songs, order), k))
    ensures IsTop(MostFirst(Rank(songs, order), k), songs)
  {
    RankIsRanking(songs, order);
    TopOfRanking(Rank(songs, order), songs, k);
  }

  /** The summed counts are the number of plays, so the prose shows the
      plays per distinct song rounded to the nearest integer, whatever order
      the set iterated in. */
  lemma SongsAverage(songs: seq<string>, order: seq<string>, k: nat)
    requires Enumerates(order, songs)
    requires k < |Elements(songs)|
    ensures ParseSongs(songs, order, k).children[2] == SongsSummary(RoundHalfEven(|songs|, |Elements(songs)|))
  {
    RankIsRanking(songs, order);
  }

  /** `parse_playtime(times)`: `max`, `min` and the division by `len(times)`
      all fail on an empty list. */
  function ParsePlaytime(times: seq<nat>, fl: FloatText): (c: Component)
    requires |times| > 0
    ensures c.Container?
    ensures c.children
            == [PlaytimeHeadline(),
                PlaytimeAverage(fl.averageMinutes(times)),
                PlaytimeExtremes(fl.minutes(Longest(times), 2), fl.minutes(Shortest(times), 4))]
  {
    Assemble([PlaytimeHeadline(),
              PlaytimeAverage(fl.averageMinutes(times)),
              PlaytimeExtremes(fl.minutes(Longest(times), 2), fl.minutes(Shortest(times), 4))])
  }

  /** The calendar day of each timestamp: `dt.split(" ")[0]`. */
  function Days(dates: seq<string>): (ds: seq<string>)
    ensures |ds| == |dates|
    ensures forall i :: 0 <= i < |dates| ==> ds[i] == FirstField(dates[i], ' ')
  {
    if |dates| == 0 then [] else [FirstField(dates[0], ' ')] + Days(dates[1..])
  }

  /** Timestamps written `day + " " + time`, with no blank inside the day,
      reduce to their days. */
  lemma DaysOfTimestamps(dates: seq<string>, days: seq<string>, times: seq<string>)
    requires |days| == |dates| == |times|
    requires forall i :: 0 <= i < |dates| ==> ' ' !in days[i] && dates[i] == days[i] + " " + times[i]
    ensures Days(dates) == days
  {
    forall i | 0 <= i < |dates|
      ensures Days(dates)[i] == days[i]
    {
      FirstFieldOf(days[i], ' ', times[i]);
    }
  }

  /** `parse_dates(dates, path)`. The per-day pairs are built by the same
      loop as `count_individuals`, sorted ascending and then reversed; the
      table always takes 11 rows, so there must be at least 11 distinct
      days. `formatDate` is `fromisoformat(day).strftime("%A %d %B %Y")`,
      and `days_streamed` is the length of `list(set(dates))`. */
  function ParseDates(dates: seq<string>, order: seq<string>, formatDate: string -> string, fl: FloatText)
    : (c: Component)
    requires Enumerates(order, Days(dates))
    requires 11 <= |Elements(Days(dates))|
    ensures c.Container?
    ensures c.children
            == [DatesHeadline(),
                TallyTable(DateHead, Relabel(MostFirst(RankAscendingReversed(Days(dates), order), 10), formatDate)),
                ChartFrame(),
                DatesSummary(|order|, fl.yearShare(|order|))]
  {
    var ranked := RankAscendingReversed(Days(dates), order);
    var daysStreamed := |order|;
    Assemble([DatesHeadline(),
              TallyTable(DateHead, Relabel(MostFirst(ranked, 10), formatDate)),
              ChartFrame(),
              DatesSummary(daysStreamed, fl.yearShare(daysStreamed))])
  }

  /** The dates table lists the 11 days with the most streams, busiest
      first, each under its formatted date with its number of streams; no
      day left out had more streams than the last one listed. */
  lemma BusiestDays(dates: seq<string>, order: seq<string>, formatDate: string -> string, fl: FloatText)
    requires Enumerates(order, Days(dates))
    requires 11 <= |Elements(Days(dates))|
    ensures var top := MostFirst(RankAscendingReversed(Days(dates), order), 10);
            && ListsTallies(ParseDates(dates, order, formatDate, fl).children[1], DateHead,
                            Relabel(top, formatDate))
            && IsTop(top, Days(dates))
  {
    var ranked := RankAscendingReversed(Days(dates), order);
    RankAscendingReversedIsRanking(Days(dates), order);
    TopOfRanking(ranked, Days(dates), 10);
    var table := ParseDates(dates, order, formatDate, fl).children[1];
    assert table == TallyTable(DateHead, Relabel(MostFirst(ranked, 10), formatDate));
  }

  /** The prose counts the distinct days. */
  lemma DaysStreamed(dates: seq<string>, order: seq<string>, formatDate: string -> string, fl: FloatText)
    requires Enumerates(order, Days(dates))
    requires 11 <= |Elements(Days(dates))|
    ensures var days := |Elements(Days(dates))|;
            ParseDates(dates, order, formatDate, fl).children[3] == DatesSummary(days, fl.yearShare(days))
  {
    DistinctCardinality(order);
  }

  /** The streams per day add up to the number of timestamps: every play
      lands on exactly one day. */
  lemma StreamsPerDay(dates: seq<string>, order: seq<string>)
    requires Enumerates(order, Days(dates))
    ensures Total(RankAscendingReversed(Days(dates), order)) == |dates|
  {
    RankAscendingReversedIsRanking(Days(dates), order);
  }

  // ---------------------------------------------------------------------
  // Integer helpers

  /** `max(times)`. */
  function Longest(times: seq<nat>): (m: nat)
    requires |times| > 0
    ensures m in times
    ensures forall i :: 0 <= i < |times| ==> times[i] <= m
  {
    if |times| == 1 then times[0]
    else
      var rest := Longest(times[1..]);
      if times[0] >= rest then times[0] else rest
  }

  /** `min(times)`. */
  function Shortest(times: seq<nat>): (m: nat)
    requires |times| > 0
    ensures m in times
    ensures forall i :: 0 <= i < |times| ==> m <= times[i]
  {
    if |times| == 1 then times[0]
    else
      var rest := Shortest(times[1..]);
      if times[0] <= rest then times[0] else rest
  }

  /** The `+=` loops over counted pairs (`total_streams_of_top_x`,
      `sum_of_streams`). */
  method SumCounts<K>(ts: seq<Tally<K>>) returns (sum: nat)
    ensures sum == Total(ts)
  {
    sum := 0;
    var i := 0;
    while i < |ts|
      invariant 0 <= i <= |ts|
      invariant sum == Total(ts[..i])
    {
      assert ts[..i + 1][..i] == ts[..i];
      sum := sum + ts[i].count;
      i := i + 1;
    }
    assert ts[..i] == ts;
  }
}
