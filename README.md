# Municipal council seat allocation (D'Hondt with scrutiny threshold)

This project models the mandate-allocation core of `municipal-elections-2022/main.py`:
the calculation that turns one municipality's published election statement into
council seats per party list, following the worked example of the Czech
elections authority (volby.cz) for municipal councils. The pipeline runs four
steps in order (main.py:179-182):

- **Step A, scrutiny** (`Scrutiny`): a party qualifies when its vote share,
  normalised by how many candidates it fielded
  (`votes / (valid_votes / councilors * min(councilors, candidates)) * 100`),
  reaches a threshold. The threshold starts at 5 per cent. While fewer than two
  parties qualify, the round is discarded, the threshold drops by one point, and
  every party is re-scanned.
- **Step B, quotients** (`QuotientGen`): each qualifying party contributes the
  claims `(truncate(votes / i, 2), order)` for `i = 1 .. candidates_amount`.
- **Step C, ranking** (`Ranking`): the claims are sorted in place, stably, by
  descending quotient.
- **Step D, seats** (`Mandates`): unless no polling division has been counted
  yet, each qualifying party gets as many seats as it holds claims among the
  first `councilor_amount` ranked claims. The count is written into the party's
  `councilor_amount_calc` field.

`Election.CalculateElection` runs the four steps. `Truncation` holds `truncate`.
`Records` holds the municipality, turnout and party records.

Encoding:

- A party is a class. The fields the parser fills (`order`, `votes`,
  `candidatesAmount`, …) are `const`; only `councilorAmountCalc` is a `var`,
  because it is the only field the core writes. A list holding the same party
  twice is therefore harmless, as it is in the source; `QualifyingCounts` shows
  that a round keeps both copies. Step D writes `councilorAmountCalc` in place,
  as the code does.
- Quotients are integers in hundredths:
  `Truncate(votes, i, 2) == floor(100 * votes / i)`.
- Step A computes the ratio with exact `real` arithmetic, the same formula the
  source evaluates in floating point. `QualifiesCrossMultiplied` proves this
  test equals the integer test
  `100 * votes * councilors >= pct * valid_votes * min(councilors, candidates)`
  for a party with votes; a party without votes qualifies exactly when `pct <= 0`.
- Step C is an in-place insertion sort on an `array`. It is specified by the
  functional sort `SortDescending`. `StableSortIsSortDescending` proves that every
  sorted, stable rearrangement equals `SortDescending`. So Python's `list.sort`
  with `reverse=True`, which is stable, gives the same order.
- `ratios[:councilor_amount]` is Python slicing, written out in `SliceTo`, negative
  bounds included.

Where the code cannot complete, the model states the condition as a precondition:

- The ratio divides by the base whenever the party has votes, so a zero base
  would raise `ZeroDivisionError`. The model requires a positive base there.
- With fewer than two parties the outer loop never returns. The model requires
  two or more.

## Model

| member | source | states |
|---|---|---|
| `Records.Municipality` | municipal-elections-2022/main.py:9-15 | the municipality record: timestamp, code, name, number of seats to fill, and whether the results are final |
| `Records.Turnout` | municipal-elections-2022/main.py:26-31 | the turnout record: envelopes submitted, valid votes, polling divisions, and polling divisions processed |
| `Records.Quotient` | municipal-elections-2022/main.py:123 | one seat claim, the pair (truncated quotient, ballot position), with the quotient in hundredths |
| `Records.PoliticalParty.constructor` | municipal-elections-2022/main.py:17-24 | a party record holds the given fields, and its computed seat count starts at the default 0 |
| `Truncation.Truncate` | municipal-elections-2022/main.py:44-45 | the result `t` (in units of 10^-n) satisfies `t * den <= num * 10^n < (t + 1) * den`, so it is the floor of the value scaled by 10^n |
| `Truncation.TruncateUnique` | municipal-elections-2022/main.py:44-45 | only one integer lies in that floor band, so the band fully characterises `truncate` |
| `Truncation.TruncateBand` | municipal-elections-2022/main.py:44-45 | in real terms, `t / 10^n <= f < t / 10^n + 10^-n` for `f = num / den` |
| `Truncation.TruncateExamples` | municipal-elections-2022/main.py:44-45 | `truncate(10/3, 2)` is 3.33; `truncate(-0.001, 2)` is -0.01 (flooring, not rounding toward zero) |
| `Truncation.QuotientMonotone` | municipal-elections-2022/main.py:122-123 | for non-negative votes and divisors `0 < i <= j`, the quotient at `j` is non-negative and at most the quotient at `i` |
| `Scrutiny.Base` | municipal-elections-2022/main.py:104 | the normalised base is positive for a party with votes whenever the no-division-by-zero condition holds |
| `Scrutiny.Ratio` | municipal-elections-2022/main.py:105-108 | a party's ratio is never negative; it is 0 for a party without votes |
| `Scrutiny.Qualifies` | municipal-elections-2022/main.py:105-109 | the test `ratio >= pct`; a party without votes qualifies exactly when `pct <= 0`, and at `pct <= 0` every party qualifies |
| `Scrutiny.QualifiesCrossMultiplied` | municipal-elections-2022/main.py:104-109 | `ratio >= pct` holds iff `100 * votes * C >= pct * V * min(C, candidates)` for a party with votes; a party without votes qualifies iff `pct <= 0` |
| `Scrutiny.Qualifying` | municipal-elections-2022/main.py:103-110 | one round's result: a party is in it iff it is listed and its ratio reaches `pct`; it is no longer than the list; at `pct <= 0` it is the whole list |
| `Scrutiny.QualifyingCounts` | municipal-elections-2022/main.py:103-110 | a listed party appears in a round as many times as in the input if it qualifies, and not at all otherwise, so a party listed twice is kept twice |
| `Scrutiny.ThresholdFrom` | municipal-elections-2022/main.py:101-115 | starting from `pct >= 0`, the threshold the loop stops at lies in `0..pct`; at least two parties qualify there; fewer than two qualify at every higher threshold it passed |
| `Scrutiny.ScrutinyThreshold` | municipal-elections-2022/main.py:100-115 | the loop starts at 5: the chosen threshold lies in `0..5`, two or more parties qualify there, and fewer than two at every threshold above it up to 5 |
| `Scrutiny.QualifyingIsSubsequence` | municipal-elections-2022/main.py:103-110 | the qualifying parties are a subsequence of the input: same objects, same order, picked at increasing positions |
| `Scrutiny.QualifyingMonotone` | municipal-elections-2022/main.py:109-113 | lowering the threshold keeps every party that already qualified and never shrinks the round |
| `Scrutiny.QualifyingDistinct` | municipal-elections-2022/main.py:103-110 | if the input's ballot positions are distinct, so are the qualifying parties' |
| `Scrutiny.FewerThanTwoNeverQualify` | municipal-elections-2022/main.py:111-113 | with fewer than two parties no threshold gives two qualifiers, so the source's loop never returns |
| `Scrutiny.PartyRatio` | municipal-elections-2022/main.py:104-108 | the base and ratio computed for one party are exactly `Ratio` of that party |
| `Scrutiny.QualifyingRound` | municipal-elections-2022/main.py:103-110 | the inner loop, which computes base and ratio per party, collects exactly `Qualifying(parties, pct)` |
| `Scrutiny.CalcElectionStepA` | municipal-elections-2022/main.py:99-115 | returns the parties qualifying at the highest threshold in 5, 4, …, 0 that lets two or more through; at least two parties, all from the input; runs `6 - threshold` rounds, at most 6 |
| `QuotientGen.PartyPrefix` | municipal-elections-2022/main.py:122-123 | a party's claims: `max(n, 0)` of them, the `k`-th being `(Truncate(votes, k + 1, 2), order)` |
| `QuotientGen.PartyQuotients` | municipal-elections-2022/main.py:122-123 | one party's claims: `max(candidates_amount, 0)` of them, the `k`-th being `(Truncate(votes, k + 1, 2), order)` |
| `QuotientGen.Quotients` | municipal-elections-2022/main.py:121-123 | the generated list has one claim per candidate of every party: its length is the sum of `max(candidates_amount, 0)` |
| `QuotientGen.Count` | municipal-elections-2022/main.py:138 | the number of claims with a given ballot position is at most the number of claims |
| `QuotientGen.PartyQuotientsShape` | municipal-elections-2022/main.py:122-123 | a party contributes `max(candidates_amount, 0)` claims, all tagged with its `order`; with non-negative votes, their quotients are non-negative and non-increasing in `i` |
| `QuotientGen.CountQuotients` | municipal-elections-2022/main.py:121-123 | with distinct ballot positions, each listed party owns exactly `max(candidates_amount, 0)` claims |
| `QuotientGen.CountQuotientsUnlisted` | municipal-elections-2022/main.py:121-123 | a ballot position no listed party holds owns no claim |
| `QuotientGen.QuotientOrdersListed` | municipal-elections-2022/main.py:121-123 | every claim carries the ballot position of some listed party |
| `QuotientGen.CalcElectionStepB` | municipal-elections-2022/main.py:119-124 | the nested loops build exactly `Quotients(parties)` |
| `Ranking.Insert` | municipal-elections-2022/main.py:129 | one insertion step of the reference sort: the result is one longer than the sorted input |
| `Ranking.InsertPermutes` | municipal-elections-2022/main.py:129 | an insertion step adds exactly `x`: the multiset of the result is that of the input plus `x` |
| `Ranking.InsertSorted` | municipal-elections-2022/main.py:129 | inserting into a descending sequence keeps it descending |
| `Ranking.InsertStable` | municipal-elections-2022/main.py:129 | inserting `x` places it after every claim of equal quotient already present, so equal quotients keep their order |
| `Ranking.SortDescending` | municipal-elections-2022/main.py:129 | the reference stable descending sort: same length as its input; `SortDescendingCorrect` below proves it sorted, a permutation and stable |
| `Ranking.SortDescendingCorrect` | municipal-elections-2022/main.py:129 | the specification sort is non-increasing in the quotient, is a permutation (multiset-equal) of its input, and keeps claims with equal quotients in their original relative order |
| `Ranking.SortedStableUnique` | municipal-elections-2022/main.py:129 | two descending sequences that hold the same claims of every quotient, in the same order, are equal |
| `Ranking.StableSortIsSortDescending` | municipal-elections-2022/main.py:129 | any sorted, stable rearrangement of the claims is `SortDescending` of them, so the choice of stable sort does not matter |
| `Ranking.InsertInPlace` | municipal-elections-2022/main.py:129 | one in-place insertion step turns the array's sorted prefix into `Insert(prefix, x)` and leaves the rest of the array alone |
| `Ranking.CalcElectionStepC` | municipal-elections-2022/main.py:128-130 | sorts the given array in place into `SortDescending` of its old contents, and returns that same array |
| `Mandates.SliceTo` | municipal-elections-2022/main.py:136 | Python's `s[:k]`: a prefix of `s` of length `min(k, len(s))` for `k >= 0`, or `max(len(s) + k, 0)` for negative `k` |
| `Mandates.SeatsConserved` | municipal-elections-2022/main.py:136-138 | with distinct ballot positions, and every claim belonging to a listed party, the per-party counts add up to the number of claims handed out |
| `Mandates.SumCalcIsSeatTotal` | municipal-elections-2022/main.py:137-138 | once each party holds its count, the written seat fields add up to that seat total |
| `Mandates.CalcElectionStepD` | municipal-elections-2022/main.py:133-138 | with no polling division processed, no party's computed seats change; otherwise each listed party's computed seats are its claims among the first `councilor_amount` ranked claims, between 0 and `councilor_amount`; no other object changes |
| `Election.RankClaims` | municipal-elections-2022/main.py:180-181 | the claims step B returns, once step C has sorted them, are `SortDescending` of those claims; no existing object is written |
| `Election.RankedSeatsConserved` | municipal-elections-2022/main.py:119-138 | handing out the first `k >= 0` ranked claims to parties with distinct positions gives `min(k, claims generated)` seats in all |
| `Election.CalculateElection` | municipal-elections-2022/main.py:179-182 | steps A to D in order: the scrutiny set and ranking are as specified; when counting has started, each qualifying party holds its count; non-qualifying parties are untouched; with distinct positions the seats add up to `min(councilors, candidates fielded)` |

## Left out

- `download_statement` and all of `batch.py`: HTTP retrieval, a string search and console output.
- `fill_municipality`, `fill_turnout`, `fill_political_parties`: XML parsing through a library that
  is not part of this model, and `datetime` parsing. The records arrive already built.
  `Municipality.timestamp` is kept as a string.
- The command-line driver and `print_mandates_amount`: argument handling and console output.
  This includes the sort at main.py:142, which exists only for display.
- Floating point: the source floors and compares IEEE doubles. The model uses exact rational and
  integer arithmetic. It does not claim bit-for-bit agreement at rounding boundaries.
- CalcElectionStepA: requires at least two parties. With fewer, the source's loop never returns,
  and a verified method must terminate. `FewerThanTwoNeverQualify` shows why the loop cannot stop.
- CalcElectionStepA: requires `councilor_amount > 0`, and a positive base for every party with votes.
  The source raises `ZeroDivisionError` when either is zero. It would go on with a negative seat
  count or a negative base; these occur only with negative counts in the statement, and they are
  excluded too.
- The parameters the source passes but never reads are dropped: `municipality`, `voted` in step B
  and `parties` in step C.
- Step B's list and step C's list are one Python object. In the model, step B returns a sequence.
  `RankClaims` copies it into a fresh array, which step C sorts in place and returns.
- Step D's claims come in as a value (`seq`), so they cannot change. The source only reads them.
