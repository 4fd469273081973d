# Counterfactual Financial Oracle — valuation engine and debate orchestrator

This project models the two algorithmic parts of the Counterfactual Financial
Oracle in Dafny and proves properties about them.

- **Valuation engine** (`logic.py`), in module `Finance`:
  - the free-cash-flow formula;
  - the discounted-sum NPV of a cash-flow stream;
  - the Monte Carlo driver. Each draw projects the base income statement one
    year ahead (revenue and OpEx moved by the draw, gross margin and D&A held,
    losses untaxed, capital and working-capital flows scaled with revenue). It
    then values the draw's free cash flow with a Gordon-growth terminal value
    at a discount rate guarded to stay above the 2% perpetual growth. The
    driver aggregates the draws into the median, 10th and 90th percentile
    NPV, the median revenue, EBITDA and FCF, and the first 100 draws;
  - the balance-sheet equation check with a $1 tolerance.
- **Debate orchestrator** (`debate_agent.py`), in module `Debate`:
  - an Optimist and a Skeptic take turns over an append-only transcript;
  - every Optimist turn passes through a validate-and-retry loop of at most
    three attempts;
  - a keyword-based convergence counter can stop the debate right after an
    Optimist turn;
  - the transcript is condensed into agreements, disagreements, a lexicon
    verdict and a confidence label.

Supporting modules:
- `Statistics` models numpy's `median` and `percentile` (default linear
  method) as order statistics of an insertion sort. It proves the order,
  permutation and scaling facts the aggregation needs.
- `Text` models the Python `str` operations the orchestrator uses: `lower`,
  `in`, `split('.')`, `strip`, `join`, slicing and keyword counting.
- `Wrappers` holds `Option` and `Result`.

How the model is set up:
- Amounts are exact `real`s.
- The two vectors of normal draws are inputs (`growth`, `opexChange`).
- The language models, the statement validator and the prompt templates are
  function-valued fields of `Debate.Capabilities`. A debate is therefore a
  deterministic function of them.
- The imperative parts are methods with loop invariants:
  - the NPV accumulator;
  - the Monte Carlo loop;
  - the retry loop;
  - the round loop;
  - the two extraction loops.

  Each method is proved against a specification function or predicate, and
  the source's promises are proved about those.

The discount-rate guard at `logic.py:155-157` promises only r > g, and the
model proves exactly that (`Finance.EffectiveDiscountRate`). The guard only
replaces rates at or below g, so it does not keep `r - g` away from zero. In
the model's exact arithmetic:
- a delta of −599 bps leaves r = 2.01%, so r − g = 0.0001 and a flow is valued
  at 10000 times itself;
- at −600 bps the rate is clamped to 3% and a flow is worth 100 times itself.

So the NPV is not monotone in the discount delta across the guard
(`Finance.NpvJumpsAtClamp`). Above the guard it strictly falls
(`Finance.NpvFallsWithDiscount`). At or below the guard it is flat
(`Finance.NpvFlatWhileClamped`).

## Model

| member | source | states |
|---|---|---|
| Finance.CalculateFcf | counterfactual_oracle/src/logic.py:5-23 | `calculate_fcf`: NOPAT plus the three flows; its meaning is stated by `Finance.FcfAddsSignedFlows`, `Finance.FcfFallsWithTax` and `Finance.FcfExample` |
| Finance.FcfAddsSignedFlows | counterfactual_oracle/src/logic.py:15-23 | FCF is NOPAT = EBIT − EBIT·tax plus D&A, working-capital change and CapEx, each added with its own sign and no correction |
| Finance.FcfFallsWithTax | counterfactual_oracle/src/logic.py:15-23 | tax applies to EBIT only: a higher rate lowers FCF by exactly EBIT times the increase, strictly for positive EBIT, and not at all for zero EBIT |
| Finance.FcfExample | counterfactual_oracle/src/logic.py:5-23 | EBIT 100, tax 25%, D&A 10, ΔWC −5, CapEx −20 give FCF 60 |
| Finance.DiscountedSum | counterfactual_oracle/src/logic.py:27-31 | the sum the loop accumulates, flow t over (1+r)^t; equal to the nested present value by `Finance.NpvIsPresentValue` |
| Finance.CalculateNpv | counterfactual_oracle/src/logic.py:25-32 | the accumulator loop returns Σ flow_t/(1+r)^t from t = 1 in stream order, 0 for an empty stream, and a division-by-zero failure exactly when r = −1 and the stream is not empty |
| Finance.PresentValueSnoc | counterfactual_oracle/src/logic.py:29-31 | appending a flow adds it discounted by one period per position |
| Finance.NpvIsPresentValue | counterfactual_oracle/src/logic.py:25-32 | the loop's left-to-right sum equals the recursive present value (first flow plus the rest, all discounted one period) |
| Finance.NpvUndiscounted | counterfactual_oracle/src/logic.py:25-32 | at a zero rate the NPV is the plain sum of the flows |
| Finance.NpvTwoFlowExample | counterfactual_oracle/src/logic.py:25-32 | [100, 100] at 10% is worth between 173.54 and 173.56 |
| Finance.EffectiveDiscountRate | counterfactual_oracle/src/logic.py:152-157 | the guarded rate is above g = 2%; it is 8% + delta when that exceeds g and exactly g + 1% otherwise; in exact arithmetic r − g ≥ 0.0001 |
| Finance.ClampThreshold | counterfactual_oracle/src/logic.py:153-157 | in exact arithmetic the guard fires exactly for deltas of −600 bps or less |
| Finance.TerminalValue | counterfactual_oracle/src/logic.py:159 | the Gordon terminal value fcf·(1+g)/(r − g), defined only above g; collapsed by `Finance.GordonCollapse` |
| Finance.DrawNpv | counterfactual_oracle/src/logic.py:159-160 | the discounted first-year flow plus the discounted Gordon terminal value equals the perpetuity fcf/(r − g) |
| Finance.GordonCollapse | counterfactual_oracle/src/logic.py:159-160 | fcf/(1+r) + TV/(1+r)^1 = fcf/(r − g) for every r above g |
| Finance.NpvFallsWithDiscount | counterfactual_oracle/src/logic.py:152-160 | above the guard, a larger discount delta gives a strictly lower NPV for a positive FCF |
| Finance.NpvFlatWhileClamped | counterfactual_oracle/src/logic.py:156-160 | every delta at or below the guard values a flow at exactly 100 times itself |
| Finance.NpvJumpsAtClamp | counterfactual_oracle/src/logic.py:153-160 | at −599 bps a flow is worth 10000 times itself, 100 times its value at −600 bps, so the NPV is not monotone across the guard |
| Finance.BaseTaxRate | counterfactual_oracle/src/logic.py:91 | the report's "TaxRate" indicator, 25% when absent |
| Finance.DrawTaxRate | counterfactual_oracle/src/logic.py:137 | the base tax rate moved by the tax delta in basis points |
| Finance.ProjectEarnings | counterfactual_oracle/src/logic.py:117-140 | revenue and OpEx move by their draws; COGS keeps the base gross margin; EBITDA = GP − OpEx; EBIT = EBITDA − fixed D&A; taxes are EBIT·rate only when EBIT > 0; net income = EBIT − interest − taxes |
| Finance.Project | counterfactual_oracle/src/logic.py:143-148 | CapEx and ΔWC are the base flows times projected/base revenue (1 when base revenue is not positive), and FCF is computed from the projected EBIT at the draw's tax rate |
| Finance.ProjectionKeepsRatios | counterfactual_oracle/src/logic.py:126-146 | with positive base revenue, projected GP/revenue equals base GP/revenue, and CapEx and ΔWC keep their ratio to revenue |
| Finance.KeyDriver | counterfactual_oracle/src/logic.py:169 | "Revenue" exactly when the growth draw is strictly larger in magnitude; a tie goes to "OpEx" |
| Finance.SimulateDraw | counterfactual_oracle/src/logic.py:114-170 | draw i has scenario id i, revenue base·(1 + growth_i) and NPV fcf/(r − g) at the guarded rate |
| Finance.Draws | counterfactual_oracle/src/logic.py:114-170 | one result per draw, in draw order, each a function of its own draws only |
| Finance.Column | counterfactual_oracle/src/logic.py:173-176 | each metric list has one entry per draw, in draw order |
| Finance.Summarize | counterfactual_oracle/src/logic.py:178-194 | p10 ≤ median ≤ p90 of the NPVs, and the retained runs are the first min(n, 100) draws |
| Finance.RunMonteCarlo | counterfactual_oracle/src/logic.py:34-195 | a non-positive base revenue fails before any draw; OpEx above revenue does not stop it; otherwise the result is the aggregate of all draws, whose kept runs are draws 0..min(n,100)−1 with scenario id = index |
| Finance.NpvColumnIsScaledFcf | counterfactual_oracle/src/logic.py:152-173 | every draw's NPV is its FCF times 1/(r − g) for one common r |
| Finance.FcfIgnoresDiscount | counterfactual_oracle/src/logic.py:137-148 | scenarios that differ only in the discount delta give the same FCF for every draw |
| Finance.MedianNpvIsPerpetuity | counterfactual_oracle/src/logic.py:152-184 | the median NPV is the median FCF over r − g |
| Finance.MedianNpvFallsWithDiscount | counterfactual_oracle/src/logic.py:152-184 | with the same draws and a positive median FCF, a higher discount delta above the guard strictly lowers the median NPV |
| Finance.Get | counterfactual_oracle/src/logic.py:201-203 | dictionary lookup: a found value is stored under the key, and nothing is found exactly when no entry has the key |
| Finance.CategoryTotal | counterfactual_oracle/src/logic.py:201-203 | the total entry if present, otherwise the sum of the other entries; stated by `Finance.TotalFromEntry` and `Finance.TotalFromSum` |
| Finance.TotalFromEntry | counterfactual_oracle/src/logic.py:201-203 | a present total key gives the total |
| Finance.TotalFromSum | counterfactual_oracle/src/logic.py:201-203 | with no total key, the total is the sum of all entries |
| Finance.CheckBalanceSheet | counterfactual_oracle/src/logic.py:197-213 | the difference is assets − (liabilities + equity), the totals are the category totals, and the sheet is balanced exactly when \|difference\| < 1 |
| Finance.BalanceSheetExamples | counterfactual_oracle/src/logic.py:197-213 | 100/40/60 is balanced with difference 0; 100/40/50 is unbalanced with difference 10 |
| Statistics.Sort | counterfactual_oracle/src/logic.py:179-184 | the sort that numpy's order statistics use is sorted and as long as its input |
| Statistics.SortPermutes | counterfactual_oracle/src/logic.py:179-184 | the sort is a permutation of its input |
| Statistics.SortPermutationInvariant | counterfactual_oracle/src/logic.py:179-184 | permuted samples sort to the same sequence |
| Statistics.Percentile | counterfactual_oracle/src/logic.py:180-181 | a percentile lies between the sample minimum and maximum |
| Statistics.PercentileMonotone | counterfactual_oracle/src/logic.py:179-181 | a higher percentile is never smaller, so p10 ≤ median ≤ p90 |
| Statistics.PercentilePermutationInvariant | counterfactual_oracle/src/logic.py:179-184 | a percentile does not depend on the order of the draws |
| Statistics.PercentileIdempotent | counterfactual_oracle/src/logic.py:179-184 | taking a percentile of the already sorted sample gives the same value |
| Statistics.Median | counterfactual_oracle/src/logic.py:179 | `np.median` as the 50th percentile; its meaning is stated by `Statistics.MedianIsMiddle` |
| Statistics.MedianIsMiddle | counterfactual_oracle/src/logic.py:179-184 | the median is the middle order statistic for odd n and the mean of the two middle ones for even n |
| Statistics.PercentileScale | counterfactual_oracle/src/logic.py:179-181 | scaling a sample by a positive factor scales every percentile by it |
| Statistics.MedianScale | counterfactual_oracle/src/logic.py:179 | scaling a sample by a positive factor scales its median by it |
| Statistics.SortMap | counterfactual_oracle/src/logic.py:179-184 | sorting commutes with a strictly increasing map |
| Text.Contains | counterfactual_oracle/src/agents/debate_agent.py:272 | Python's `pat in text`; characterised by `Text.ContainsAt` |
| Text.ContainsAt | counterfactual_oracle/src/agents/debate_agent.py:269-273 | `pat in text` holds exactly when pat occurs at some offset of text |
| Text.Lower | counterfactual_oracle/src/agents/debate_agent.py:260 | lower-casing keeps the length and maps each character |
| Text.Split | counterfactual_oracle/src/agents/debate_agent.py:328 | split yields at least one part and no part contains the separator |
| Text.Join | counterfactual_oracle/src/agents/debate_agent.py:185 | `sep.join(parts)`; inverse of `Text.Split` by `Text.JoinSplit` |
| Text.JoinSplit | counterfactual_oracle/src/agents/debate_agent.py:328 | joining the split parts with the separator gives the message back |
| Text.Strip | counterfactual_oracle/src/agents/debate_agent.py:331 | strip removes only leading and trailing whitespace and leaves none at either end |
| Text.Take | counterfactual_oracle/src/agents/debate_agent.py:186 | `s[:n]` is the prefix of length min(n, \|s\|) |
| Text.CountPresent | counterfactual_oracle/src/agents/debate_agent.py:364-365 | `sum(1 for keyword in cues if keyword in text)`; equal to a set size by `Text.CountPresentIsCard` |
| Text.CountPresentIsCard | counterfactual_oracle/src/agents/debate_agent.py:364-365 | for a keyword list without repeats, the count is the number of distinct keywords present |
| Text.Distinct | counterfactual_oracle/src/agents/debate_agent.py:335 | `list(set(xs))` has no repeats and exactly the values of xs |
| Text.NoDupCard | counterfactual_oracle/src/agents/debate_agent.py:335 | a list without repeats has as many distinct values as elements |
| Debate.FeedbackNote | counterfactual_oracle/src/agents/debate_agent.py:171 | the rejection note with the validator's issues and feedback |
| Debate.PromptAt | counterfactual_oracle/src/agents/debate_agent.py:158-171 | the prompt of each attempt: the first prompt plus one feedback note per earlier rejection; stated by `Debate.RetryStep` and `Debate.PromptNeverShrinks` |
| Debate.Attempts | counterfactual_oracle/src/agents/debate_agent.py:160-173 | between 1 and 3 attempts; every attempt before the last was rejected; fewer than 3 means the last was accepted |
| Debate.ValidatedText | counterfactual_oracle/src/agents/debate_agent.py:160-173 | the text of the last attempt `Debate.Attempts` makes |
| Debate.ValidatedOptimistTurn | counterfactual_oracle/src/agents/debate_agent.py:158-173 | the retry loop returns the first accepted text, or the third attempt's text when all three are rejected |
| Debate.RetryStep | counterfactual_oracle/src/agents/debate_agent.py:167-171 | a rejected attempt is followed by a prompt that is the old prompt plus that attempt's feedback |
| Debate.PromptNeverShrinks | counterfactual_oracle/src/agents/debate_agent.py:171 | each attempt's prompt extends every earlier one and the first prompt |
| Debate.OfRole | counterfactual_oracle/src/agents/debate_agent.py:186-187 | the turns of one side: exactly the log's turns with that role |
| Debate.Excerpts | counterfactual_oracle/src/agents/debate_agent.py:185-188 | at most one excerpt per turn, each at most 100 characters and the beginning of a message of that side |
| Debate.ExcerptsAreTakes | counterfactual_oracle/src/agents/debate_agent.py:185-188 | there is one excerpt per turn of that side, and the k-th is the first 100 characters of the k-th such turn's message, in log order |
| Debate.Digest | counterfactual_oracle/src/agents/debate_agent.py:185-188 | the excerpts joined with single spaces; its content is stated by `Debate.ExcerptsAreTakes` |
| Debate.NextTurn | counterfactual_oracle/src/agents/debate_agent.py:67-131 | the turn `run_debate` appends after a given transcript; its round and role pattern are stated by `Debate.TranscriptShape` |
| Debate.TranscriptShape | counterfactual_oracle/src/agents/debate_agent.py:62-134 | turn i is in round i/2 + 1, Optimist turns are exactly the even positions, and round numbers never decrease |
| Debate.AgreementHits | counterfactual_oracle/src/agents/debate_agent.py:269-273 | the number of (message, keyword) pairs; equal to distinct-keyword counts by `Debate.ConvergenceCountsDistinctKeywords` |
| Debate.CheckConvergence | counterfactual_oracle/src/agents/debate_agent.py:256-257 | fewer than four turns never converge |
| Debate.ConvergenceCountsDistinctKeywords | counterfactual_oracle/src/agents/debate_agent.py:247-276 | convergence holds iff there are at least 4 turns and the distinct agreement keywords per message, summed over the last four lower-cased messages, reach 2 |
| Debate.CounterAt | counterfactual_oracle/src/agents/debate_agent.py:108-116 | the convergence counter after each round: +1 on a positive check, 0 on a negative one; bounded by `Debate.CounterBound` |
| Debate.CounterBound | counterfactual_oracle/src/agents/debate_agent.py:108-116 | the convergence counter after round r is at most r − 2 |
| Debate.ConvergenceRoundBound | counterfactual_oracle/src/agents/debate_agent.py:67-116 | a debate stops no earlier than round 3 and no earlier than round 2 + threshold |
| Debate.RoundsUpTo | counterfactual_oracle/src/agents/debate_agent.py:141 | the round numbers 1..n, n of them |
| Debate.RoundCount | counterfactual_oracle/src/agents/debate_agent.py:141 | the number of distinct round numbers equals the last round reached |
| Debate.OpeningRoles | counterfactual_oracle/src/agents/debate_agent.py:67-87 | round 1 is the Optimist's opening, then the Skeptic's challenge |
| Debate.PlayRound | counterfactual_oracle/src/agents/debate_agent.py:90-134 | one round: the validated response; then either a stop right after it (counter reached the threshold on a positive check) or the Skeptic's counter, which becomes the next challenge |
| Debate.DebateRounds | counterfactual_oracle/src/agents/debate_agent.py:62-135 | the transcript is the one the orchestrator builds; a converged debate stops after the Optimist turn of the first round that brings the counter to the threshold; otherwise it holds two turns for each of rounds 1..max(1, max_rounds) and no round stopped it |
| Debate.OutcomeShape | counterfactual_oracle/src/agents/debate_agent.py:62-141 | every outcome starts with the Optimist and the Skeptic and has as many distinct rounds as its last round number |
| Debate.RunDebate | counterfactual_oracle/src/agents/debate_agent.py:43-149 | the debate outcome, total rounds = last round reached, and the consensus drawn from the final transcript |
| Debate.FirstCued | counterfactual_oracle/src/agents/debate_agent.py:329-332 | nothing is found exactly when no sentence carries a cue |
| Debate.FirstCuedAt | counterfactual_oracle/src/agents/debate_agent.py:329-332 | the first cued sentence, stripped, is the one taken |
| Debate.Collect | counterfactual_oracle/src/agents/debate_agent.py:324-332 | at most one item per turn; by `Debate.CollectIsFirstCued`, exactly one item per contributing turn, in turn order, namely that turn's first cue-bearing sentence, stripped |
| Debate.CollectComplete | counterfactual_oracle/src/agents/debate_agent.py:324-353 | conversely, a turn whose message carries a turn cue and has a cue-bearing '.'-segment contributes its first such segment, stripped, so cued agreements and objections are never missed |
| Debate.Contributing | counterfactual_oracle/src/agents/debate_agent.py:324-332 | a turn is in it exactly when its message carries a turn cue and it has a cue-bearing sentence; never longer than the transcript |
| Debate.CollectIsFirstCued | counterfactual_oracle/src/agents/debate_agent.py:324-353 | the k-th collected item is the first cue-bearing sentence, stripped, of the k-th contributing turn (the inner loop's `break`), and there are as many items as contributing turns |
| Debate.CollectedAreSegments | counterfactual_oracle/src/agents/debate_agent.py:320-353 | every collected item is the first cue-bearing '.'-segment, stripped, of a turn whose message carries a turn cue |
| Debate.ExtractSentences | counterfactual_oracle/src/agents/debate_agent.py:320-353 | the result has no repeats, only collected items, and min(cap, number of distinct collected items) entries |
| Debate.Filter | counterfactual_oracle/src/agents/debate_agent.py:342 | keeps exactly the turns whose round is at least the bound |
| Debate.Recent | counterfactual_oracle/src/agents/debate_agent.py:342 | only turns of the last two rounds |
| Debate.Transcript | counterfactual_oracle/src/agents/debate_agent.py:358 | all messages lower-cased and joined with spaces |
| Debate.DetermineVerdict | counterfactual_oracle/src/agents/debate_agent.py:355-373 | Buy-side iff distinct positive keywords > 1.5 × negative; Sell-side iff not that and negative > 1.5 × positive; Hold otherwise; cautious exactly when not converged and not Hold |
| Debate.BalancedTranscriptHolds | counterfactual_oracle/src/agents/debate_agent.py:364-373 | equal keyword counts, in particular none, give Hold |
| Debate.ConfidenceLevel | counterfactual_oracle/src/agents/debate_agent.py:296-297 | High iff converged without disagreements, Medium iff converged with some, Low iff not converged |
| Debate.CautiousMeansLowConfidence | counterfactual_oracle/src/agents/debate_agent.py:296-297 | a cautious verdict comes with Low confidence, and a converged debate never gives a cautious verdict |
| Debate.SynthesizeConsensus | counterfactual_oracle/src/agents/debate_agent.py:278-318 | agreements from the whole transcript (no repeats, at most 5), disagreements from the last two rounds (no repeats, at most 3), the verdict and the confidence |
| Debate.ExtractedItemsOrigin | counterfactual_oracle/src/agents/debate_agent.py:320-353 | one agreement per contributing turn; each agreement is the first cue-bearing sentence, stripped, of some message; each disagreement is that of a turn of the last two rounds |

## Left out

- Random draws (`np.random.normal`, logic.py:109-110) are input sequences, so the distribution means and standard deviations, and any statistical claim about the NPV ranges, are not modelled.
- Floating point: all amounts are exact reals, and numpy's percentile is modelled as exact linear interpolation between order statistics.
- The OpEx-above-revenue warning (`print`), the assumption log and the traceability dictionary are presentation only.
- Finance.RunMonteCarlo: with zero draws numpy has no median or percentile, so the model returns a `NoDraws` failure.
- Finance.CalculateNpv: Python raises `ZeroDivisionError` at a rate of −1 with a non-empty stream; the model returns a `DivisionByZero` failure instead.
- The language-model clients, the statement validator (its source is not part of this model) and the prompt templates of `debate_prompts.py` are deterministic functions passed in through `Debate.Capabilities`. Sampling temperature and API failures are not modelled.
- Turn timestamps, topic labels and speaker names are not modelled. The speaker name is determined by the role.
- The consensus summary f-string (debate_agent.py:300-310) is presentation only.
- Debate.ExtractSentences: Python's `list(set(...))` order is unspecified, so only no-repeats, membership and the size min(cap, #distinct) are stated, not which items are kept.
- Text.Lower: lower-cases ASCII letters only; Unicode case mapping is not modelled.
- Finance.EffectiveDiscountRate, Finance.ClampThreshold, Finance.NpvFlatWhileClamped, Finance.NpvJumpsAtClamp: these hold in exact arithmetic. In the program's double-precision arithmetic, 0.08 + (−600)/10000.0 rounds to just above 0.02, so the guard first fires at −601 bps. At −600 bps r − g is about 3.5e−18, and at −599 bps it is slightly below 0.0001. The jump across the guard is therefore even sharper in the program than in the model.
- Validation issues are a string in the model; the validator's own formatting of a list of issues is not modelled.
- Debate.SynthesizeConsensus requires an Optimist and a Skeptic turn, because the source indexes the last message of each side and would raise otherwise. Every transcript `RunDebate` builds has both.
- The body of the round loop is factored into the method `Debate.PlayRound`; the stop path returns an empty reply that the caller does not use.
- Default arguments are not modelled: `num_simulations` (10000 by default, logic.py:34) is the length of the draw sequences, and `max_rounds` (10) and `convergence_threshold` (2) of `run_debate` (debate_agent.py:47-48) are plain parameters of `Debate.RunDebate`.
- `FinancialValidator`, the document parser, the HTTP and database routes and the frontend are not part of this model.
