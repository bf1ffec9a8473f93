# Spotify listening report: counting, ranking and HTML model

A Dafny model of the core of a small Python tool that reads a Spotify
streaming history and writes an HTML report. The report is built from
virtual HTML nodes (html_components.py) by four section builders
(data_parser.py). The builders count how often each artist, song or day
occurs (`count_individuals`, helper_functions.py), sort the counted pairs,
put the top and bottom entries into tables, and print a few figures as
prose. The older node set of html_renderer.py, which the legacy report
script uses, is modelled next to the current one and compared with it.

Modules, one per concern:

- `Tallies` (tallies.dfy): `count_individuals`. The iteration order of
  `list(set(elements))` is unspecified in Python, so it is an explicit
  argument `order` with the precondition `Enumerates(order, elements)`:
  every distinct element exactly once. `FirstOccurrences` shows that such
  an order exists for every input.
- `Ranking` (ranking.dfy): `list.sort(key=count, reverse=...)` as a stable
  insertion sort and `list.reverse()`. Also the slices the builders take
  from the ranked list: `ranked[0..k]` and `ranked[-1..-(l+1)]`. It
  characterises what those slices are: the most and the least frequent
  elements.
- `Rounding` (rounding.dfy): Python's `round(p / q)` with no digits, in
  integers. It rounds to the nearest integer, and a half-way value goes to
  the even one.
- `Decimal` and `Text` (decimal.dfy, text.dfy): `str(n)` for naturals,
  `"".join`, `sep.join`, `str.split` and `split(sep)[0]`.
- `Html` (html.dfy): the node kinds of html_components.py as one datatype,
  `__str__` as `Render`, and `add_component`, `add_cell`, `add_row` as
  functions that return the extended node. The templates are copied byte
  for byte, including the whitespace of the triple-quoted strings.
- `LegacyHtml` (legacy_html.dfy): html_renderer.py, with a mapping `ToCurrent`
  into `Html` and lemmas about where the two renderings agree and where they
  differ.
- `Sections` (sections.dfy): `parse_artists`, `parse_songs`,
  `parse_playtime` and `parse_dates`. Each builder's contract gives the
  exact list of children of the container it returns. Lemmas then state
  what each table lists and which figures the prose prints.

Two behaviours of the code are kept as written:

- The top tables have one row more than their headline says. They loop
  over `range(0, k + 1)` and `range(1, l + 2)`, and the dates table always
  takes 11 rows under the headline "Top 10".
- A list with too few distinct entries is not clamped: the loops index past
  its end and Python raises `IndexError`. The model follows the code: the
  builders require `k < number of distinct elements` (and 11 distinct
  days for the dates), which is exactly the condition under which Python
  does not raise.

## Model

| member | source | states |
|---|---|---|
| Tallies.Occurrences | helper_functions.py:9 | `elements.count(x)` is the multiplicity of `x`; it is positive exactly when `x` occurs, and at most the length |
| Tallies.FirstOccurrences | helper_functions.py:5 | for every list there is an order that enumerates `set(elements)`, each distinct element once |
| Tallies.CountIndividuals | helper_functions.py:4-11 | one pair per distinct element and none for anything else; each count equals the element's number of occurrences and is at least 1; keys are distinct; the counts add up to `len(elements)`; empty input gives an empty list |
| Tallies.CountIndividualsMembers | helper_functions.py:7-10 | a pair is in the result if and only if its key occurs and its count is the key's number of occurrences |
| Tallies.CountIndividualsOrderIndependent | helper_functions.py:5-10 | whatever order the set iterates in, the results are permutations of each other |
| Tallies.DistinctCardinality | data_parser.py:103-104 | a list without repeats has as many entries as its set, so `len(list(set(dates)))` is the number of distinct days |
| Ranking.SortByCount | data_parser.py:13 | the sorted list is a permutation of its input and is ordered by count: non-increasing with `reverse=True`, non-decreasing otherwise |
| Ranking.Reverse | data_parser.py:117 | position `i` of the result holds position `n - 1 - i` of the input |
| Ranking.ReversePermutation | data_parser.py:117 | reversing keeps the same elements with the same multiplicities |
| Ranking.ReverseOrdered | data_parser.py:116-117 | an ascending list, reversed, is descending |
| Ranking.Rank | data_parser.py:12-13 | the ranked artists or songs are a permutation of the counted pairs, largest count first, one per distinct element |
| Ranking.RankAscendingReversed | data_parser.py:107-117 | the per-day pairs, sorted ascending and reversed, are a permutation of the counted pairs, largest count first |
| Ranking.PermutedCountIsRanking | data_parser.py:12-13 | any descending permutation of the counted pairs lists each distinct element once with its number of occurrences; the counts sum to the number of elements and each is at least 1 |
| Ranking.RankIsRanking | data_parser.py:12-13 | the ranked list is a ranking of the input; it has one entry per distinct element, and its counts sum to the number of elements |
| Ranking.RankAscendingReversedIsRanking | data_parser.py:107-117 | the per-day list is a ranking of the days, and its counts sum to the number of timestamps |
| Ranking.TotalPermutation | data_parser.py:61-63 | reordering the pairs does not change the sum of their counts |
| Ranking.RankingCountsUnique | data_parser.py:12-13 | two rankings of the same input, from any two set orders, have the same counts at every position; only tied keys can trade places |
| Ranking.NonIncreasingUnique | data_parser.py:13 | a descending list of numbers is determined by its multiset |
| Ranking.MostFirst | data_parser.py:20-21 | the loop `range(0, k + 1)` takes `k + 1` pairs, `ranked[0]` to `ranked[k]`, in that order |
| Ranking.LeastFirst | data_parser.py:39-40 | the loop `range(1, l + 2)` takes `l + 1` pairs, `ranked[-1]` to `ranked[-(l + 1)]`, in that order |
| Ranking.TopOfRanking | data_parser.py:20-21 | the first `k + 1` pairs of a ranking are the most frequent elements: real elements with their counts, no repeats, descending, and no element left out occurs more often than the last one listed |
| Ranking.BottomOfRanking | data_parser.py:39-40 | the last `l + 1` pairs, read backwards, are the least frequent elements: ascending, and no element left out occurs less often than the last one listed |
| Ranking.TopStreams | data_parser.py:18-22 | `total_streams_of_top_x` lies between `k + 1` and `len(artists)`, so the printed share is at most a hundred percent |
| Ranking.TopCountsIndependent | data_parser.py:20-22 | the counts of the top rows and their sum do not depend on the set's iteration order |
| Ranking.LeastCountsIndependent | data_parser.py:39-40 | the counts of the bottom rows do not depend on the set's iteration order |
| Rounding.DivMod | data_parser.py:67 | floor division: quotient times divisor plus remainder gives the dividend, and the remainder is below the divisor |
| Rounding.RoundHalfEven | data_parser.py:67 | `round(sum_of_streams / amount_of_songs)` is within one half of the exact quotient, and is even when the quotient lies exactly half-way |
| Rounding.RoundHalfEvenUnique | data_parser.py:67 | exactly one integer meets that contract, so the contract determines the printed average |
| Rounding.TimesIsProduct | data_parser.py:67 | the repeated addition used by the rounding contract is multiplication |
| Decimal.NatToString | html_components.py:44 | the f-string text of a count is a canonical decimal numeral; it has one digit exactly when the count is below ten |
| Decimal.ParseNatToString | html_components.py:44 | reading the printed count back as decimal gives the count |
| Decimal.NatToStringInjective | html_components.py:151 | different numbers print differently, so the heading level in `<h{level}>` is recoverable |
| Text.IndexOf | data_parser.py:102 | the position of the first blank: no blank before it, and it is the length exactly when there is no blank |
| Text.Split | data_parser.py:102 | `split(" ")` gives at least one piece, no piece contains the separator, and joining the pieces with the separator gives back the string |
| Text.SplitJoin | html_components.py:83 | splitting on a one-character separator undoes joining with it, when no part contains it |
| Text.FirstField | data_parser.py:102 | `dt.split(" ")[0]` is a blank-free prefix of `dt`, followed in `dt` by a blank unless it is all of `dt` |
| Text.FirstFieldOf | data_parser.py:102 | for a timestamp written `day + " " + time` with a blank-free day, `split(" ")[0]` is the day |
| Text.JoinAppend | html_components.py:83 | `sep.join` of one more part adds the separator (if there were parts) and the part |
| Html.RenderCell | html_components.py:42-45 | a data cell opens with `<td>`, a header cell with `<th>`; both close with `</td>`; the data's text sits in between and can be sliced back out |
| Html.NewContainer | html_components.py:21-23 | a new container has no children |
| Html.NewFile | html_components.py:99-102 | a new file has the given title and no components |
| Html.AddComponent | html_components.py:25-27 | `add_component` puts the child last; the earlier children, and a file's title, stay as they were |
| Html.Assemble | html_components.py:21-27 | a new container filled by `add_component` calls holds exactly those parts, in call order |
| Html.AddCell | html_components.py:55-57 | `add_cell` puts the cell last and keeps the earlier cells |
| Html.RowOf | html_components.py:74-78 | the `add_cell` loop gives one cell per item, in order, all of the same kind |
| Html.NewTable | html_components.py:67-72 | a new table has one header cell per label, in order, and no body rows |
| Html.AddRow | html_components.py:74-79 | `add_row` appends one row of data cells, one per item; the head and the earlier rows are unchanged |
| Html.ContainerMarkup | html_components.py:29-31 | `HTMLContainer.__str__`: `<div class="container">`, the children's markup back to back in insertion order, `</div>`, each piece recoverable by slicing |
| Html.RowMarkup | html_components.py:59-61 | `HTMLTableRow.__str__`: `<tr>`, the cells' markup back to back, `</tr>` |
| Html.TableMarkup | html_components.py:81-93 | `HTMLTable.__str__`: the opening template with `<thead>` and `<tr>`, the head row, `</tr>` and the template up to `<tbody>`, the body rows joined by line breaks, the closing template; the templates match the source byte for byte |
| Html.FileMarkup | html_components.py:108-125 | `HTMLFile.__str__`: the page template up to `<title>`, the title, the template from `</title>` to the body, the components joined by line breaks, the closing template |
| Html.ParagraphMarkup | html_components.py:136-139 | `HTMLParagraph.__str__`: `<p>`, the text (wrapped in `<strong>` when bold), `</p>` |
| Html.ContainerAppend | html_components.py:29-31 | a container's markup with one more child is the old markup with the child's markup inserted before the closing `</div>` |
| Html.AddComponentRenderContainer | html_components.py:25-31 | adding a child to a container inserts the child's markup just before `</div>` and changes nothing else |
| Html.FileAppend | html_components.py:108-125 | a file's markup with one more component gains a line break (unless the body was empty) and the component's markup just before the closing template |
| Html.AddComponentRenderFile | html_components.py:104-125 | adding a component to a file changes its markup only by that insertion |
| Html.TableAppend | html_components.py:81-93 | a table's markup with one more row gains a line break (unless the body was empty) and the row's markup just before the closing template |
| Html.AddRowRender | html_components.py:74-93 | `add_row` changes the table's markup only by that insertion |
| Html.TableHeadDoubleRow | html_components.py:59-61 | the head row's own `<tr>` sits inside the template's `<tr>`, so a table's head reads `<tr><tr>` followed by the header cells and `</tr></tr>` |
| Html.TableBodyLines | html_components.py:81-83 | for a table with at least one row whose cells hold no line break, splitting the table body at line breaks gives back the rendered rows in order |
| Html.NoBreakInRow | html_components.py:59-61 | a row whose cells hold no line break renders without one |
| Html.IFrameSource | html_components.py:161-162 | the markup is `<iframe src="`, the source, and `" frameborder="0" height="400"></iframe>`; the source can be sliced back out, so different sources give different markup |
| Html.BoldParagraph | html_components.py:136-139 | a bold paragraph is the plain paragraph of the text wrapped in `<strong>` |
| Html.HeadlineLevel | html_components.py:150-151 | the markup is `<h`, the level's digits, `>`, the text, `</h`, the same digits and `>`; the digits read back as the level |
| LegacyHtml.ContainerMarkup | html_renderer.py:13-14 | the legacy container prints its single child's markup between `<div class="container">` and `</div>` |
| LegacyHtml.TableMarkup | html_renderer.py:53-63 | the legacy table prints its opening template with the Bootstrap class and `<tr>`, the head row, `</tr>` and `<tbody>`, the body rows joined by line breaks, and the closing template |
| LegacyHtml.FileMarkup | html_renderer.py:73-92 | the legacy page prints the template up to `<title>`, the title, the template from `</title>` through the extra `<div class="container">`, the components joined by line breaks, and the closing template |
| LegacyHtml.ParagraphMarkup | html_renderer.py:98-99 | a legacy paragraph is always `<p>`, the text, `</p>` |
| LegacyHtml.RowOf | html_renderer.py:47-50 | the `add_cell` loop gives one cell per item, in order |
| LegacyHtml.NewTable | html_renderer.py:41-45 | a new legacy table has one header cell per label and no body rows |
| LegacyHtml.AddRow | html_renderer.py:47-51 | `add_row` appends one row of data cells and keeps the head and the earlier rows |
| LegacyHtml.AddComponent | html_renderer.py:70-71 | `add_component` puts the component last and keeps the title |
| LegacyHtml.AddComponentRender | html_renderer.py:70-92 | adding a component inserts a line break (unless the body was empty) and its markup just before the closing template, inside the extra `<div>` |
| LegacyHtml.AddRowRender | html_renderer.py:47-63 | `add_row` inserts a line break (unless the body was empty) and the row's markup just before the table's closing template |
| LegacyHtml.TableHeadDoubleRow | html_renderer.py:53-63 | the legacy table has no `<thead>`; its head row follows the table tag directly, wrapped in a second `<tr>` |
| LegacyHtml.RowAgrees | html_renderer.py:22-38 | cells and rows print the same in the legacy and the current model |
| LegacyHtml.SameMarkupWithoutTables | html_renderer.py:9-108 | every legacy node that contains no table prints exactly like its counterpart in the current model |
| LegacyHtml.TableMarkupDiffers | html_renderer.py:53-63 | legacy and current tables print the same head row text and body text and close the same way; they differ in the table tag, and the current one prints `</thead>` after the head row where the legacy one goes straight to `<tbody>` |
| LegacyHtml.TableTopDiffers | html_renderer.py:56-58 | the legacy opening template is not the current one (its `<table>` tag carries a Bootstrap class and no `<thead>` follows) |
| LegacyHtml.TableHeadEndDiffers | html_renderer.py:58-59 | after the head row's `</tr>`, the current template is `</thead>` on its own line followed by the legacy template |
| Sections.TallyTable | data_parser.py:17-21 | a table under the given head whose rows are the pairs, one `(key, count)` row each, in order |
| Sections.Relabel | data_parser.py:120-125 | the dates table rows carry the formatted date of each day and its count unchanged |
| Sections.ParseArtists | data_parser.py:10-44 | the artists container holds, in order: the top headline, the top table of `ranked[0..k]`, the prose, the bottom headline, and the table of `ranked[-1..-(l+1)]` |
| Sections.TopArtistsTable | data_parser.py:17-26 | the first table lists the `k + 1` most streamed artists with their stream counts, most streamed first, and no artist left out was streamed more |
| Sections.LeastArtistsTable | data_parser.py:38-42 | the second table lists the `l + 1` least streamed artists, least first, and no artist left out was streamed less |
| Sections.ArtistsFigures | data_parser.py:18-36 | the prose prints the number of distinct artists, the number of streams, their quotient, `k`, and the share of the top streams; those streams lie between `k + 1` and the number of streams |
| Sections.ArtistsOrderIndependent | data_parser.py:12-36 | the artists prose is the same whatever order the set iterates in |
| Sections.ParseSongs | data_parser.py:47-71 | the songs container holds the headline, the table of `ranked[0..k]` and the prose with `round(sum_of_streams / amount_of_songs)` |
| Sections.TopSongsTable | data_parser.py:54-58 | the table lists the `k + 1` most streamed songs with their counts, and no song left out was streamed more |
| Sections.SongsAverage | data_parser.py:60-67 | the printed average is the number of plays divided by the number of distinct songs, rounded half to even, whatever the set order |
| Sections.SumCounts | data_parser.py:61-63 | the `+=` loop over the counted pairs computes the sum of their counts |
| Sections.ParsePlaytime | data_parser.py:74-94 | the playtime container holds the headline, the average paragraph and the longest/shortest paragraph; an empty list is excluded as in Python |
| Sections.Longest | data_parser.py:88 | `max(times)` is one of the times and no time exceeds it |
| Sections.Shortest | data_parser.py:89 | `min(times)` is one of the times and no time is below it |
| Sections.Days | data_parser.py:102 | one day per timestamp, each the text before the first blank |
| Sections.DaysOfTimestamps | data_parser.py:102 | timestamps written `day + " " + time` reduce to exactly their days |
| Sections.ParseDates | data_parser.py:97-148 | the dates container holds the headline, the table of the first 11 per-day pairs with formatted dates, the chart frame, and the prose with the number of distinct days |
| Sections.BusiestDays | data_parser.py:116-125 | the dates table lists the 11 days with the most streams, busiest first, under their formatted dates; no day left out had more streams |
| Sections.DaysStreamed | data_parser.py:103-104 | the prose prints the number of distinct days |
| Sections.StreamsPerDay | data_parser.py:107-114 | the streams per day add up to the number of timestamps |

## Left out

- main.py, lookback.py, lookback_html.py and compress_stylesheet.py are not part of this model. They cover argument parsing, JSON reading, file output and the legacy script.
- Floating-point arithmetic and `round(x, ndigits)`: the prose figures `round(a / b, 2)`, the percentage, the playtime minutes and the year share are supplied by the `FloatText` argument as functions of the integers they are computed from. Only their inputs are modelled.
- Rounding.RoundHalfEven: Python computes `round` on the float quotient. That equals the exact integer rounding only while the number of plays stays below 2^51, where float division is exact enough to keep half-way cases. The model states the exact rounding.
- Sections.ParseDates: `fromisoformat(day).strftime("%A %d %B %Y")` is the function argument `formatDate`. The `ValueError` that `fromisoformat` raises on a malformed day is not modelled.
- Sections.ParseDates: the bar chart (`plotly`, `DataFrame`, `fig.write_html`) is file output and is not modelled; the frame that embeds it is.
- Sections.ParseDates: the year share printed is `100 - round(days_streamed / 365, 2)`, which is not the share of the year streamed. It is kept opaque in `FloatText.yearShare` with that expression as its meaning, because it involves floats.
- Sections.ParsePlaytime: the average and the minutes are float text; the model states the child structure and that the longest and shortest times are `max` and `min`.
- Ranking.SortByCount: the contract states permutation and order, not stability. The order of tied pairs comes from the set's iteration order, which is unspecified anyway. Every lemma about the tables' counts holds for any order of ties.
- Sections.ParseArtists: negative `k` or `l` are not modelled. They are naturals here; in Python a negative count makes the loops run zero times.
- Sections.ParseSongs: a negative `k` is not modelled for the same reason; `range(0, k + 1)` would then run zero times.
- Html.Datum: table cells hold text or natural numbers, the only data the builders put in them. Python's f-string would print any object.
- The abstract `HTMLComponent.__str__`, which raises (current model) or returns `None` (legacy model), has no counterpart: the node datatypes are closed.
- The `@dataclass` decoration adds generated equality and `repr`, which the report does not use.
