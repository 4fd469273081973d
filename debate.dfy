/**
  The debate orchestrator: an Optimist and a Skeptic exchange turns round by
  round over an append-only transcript, every Optimist turn passes through a
  validate-and-retry loop, a keyword counter decides convergence, and the
  transcript is condensed into agreements, disagreements, a verdict and a
  confidence label.

  The two language models, the statement validator and the prompt templates
  are outside this model; they are the function-valued fields of
  `Capabilities`, so a debate is a function of them and its parameters.
*/
module Debate {
  import opened Wrappers
  import opened Text

  datatype Role = Optimist | Skeptic

  /** One transcript entry: round number, role and message. */
  datatype Turn = Turn(round: int, role: Role, message: string)

  /** The validator's answer on one statement. */
  datatype Validation = Validation(isValid: bool, issues: string, feedback: string)

  /** The outside world of one debate, with the report and the simulation
      already bound into the prompt templates and the validator. */
  datatype Capabilities = Capabilities(
    openingPrompt: string,
    challengePrompt: string -> string,
    responsePrompt: (string, int, string) -> string,
    counterPrompt: (string, int, string) -> string,
    optimist: string -> string,
    skeptic: string -> string,
    validate: string -> Validation)

  datatype Verdict = Buy | CautiousBuy | Sell | CautiousSell | Hold

  datatype Confidence = High | Medium | Low

  /** Generate-and-validate attempts per Optimist turn. */
  const MaxAttempts: nat := 3
  /** Characters of each earlier message quoted back in a prompt. */
  const ExcerptLength: nat := 100
  const MaxAgreements: nat := 5
  const MaxDisagreements: nat := 3

  const AgreementKeywords: seq<string> :=
    ["i agree", "you're right", "fair point", "i concede", "that makes sense", "good point",
     "i accept", "converge", "consensus", "we agree", "aligned"]
  const AgreementTurnCues: seq<string> := ["i agree", "you're right", "fair point", "concede"]
  const AgreementSentenceCues: seq<string> := ["agree", "right", "fair", "concede"]
  const DisagreementTurnCues: seq<string> := ["however", "but", "concern", "risk", "disagree", "challenge"]
  const DisagreementSentenceCues: seq<string> := ["concern", "risk", "however", "but"]
  const PositiveKeywords: seq<string> :=
    ["growth", "strong", "opportunity", "upside", "buy", "positive", "confident"]
  const NegativeKeywords: seq<string> :=
    ["risk", "concern", "downside", "sell", "negative", "weak", "challenge"]

  // ---------------------------------------------------------------------
  // The validate-and-retry loop of an Optimist turn
  // ---------------------------------------------------------------------

  /** The note appended to the prompt after a rejected attempt. */
  const RejectionHead: string := "\n\n[SYSTEM FEEDBACK]: Your previous response was rejected. Issues: "
  const FeedbackHead: string := ". \nFeedback: "
  const RewriteRequest: string := "\n\nPlease rewrite strictly adhering to the data."

  function FeedbackNote(v: Validation): string {
    RejectionHead + v.issues + FeedbackHead + v.feedback + RewriteRequest
  }

  /** The prompt of attempt `k` (from 0): the first prompt followed by the
      feedback on each earlier attempt, in order. */
  function PromptAt(caps: Capabilities, first: string, k: nat): string {
    if k == 0 then first
    else
      var prev := PromptAt(caps, first, k - 1);
      prev + FeedbackNote(caps.validate(caps.optimist(prev)))
  }

  predicate AcceptedAt(caps: Capabilities, first: string, k: nat) {
    caps.validate(caps.optimist(PromptAt(caps, first, k))).isValid
  }

  function AttemptsFrom(caps: Capabilities, first: string, k: nat): (n: nat)
    requires k < MaxAttempts
    ensures k < n <= MaxAttempts
    ensures forall j :: k <= j < n - 1 ==> !AcceptedAt(caps, first, j)
    ensures n < MaxAttempts ==> AcceptedAt(caps, first, n - 1)
    decreases MaxAttempts - k
  {
    if k == MaxAttempts - 1 || AcceptedAt(caps, first, k) then k + 1
    else AttemptsFrom(caps, first, k + 1)
  }

  /** How many attempts an Optimist turn makes: up to the first accepted
      one, and never more than three. */
  function Attempts(caps: Capabilities, first: string): (n: nat)
    ensures 1 <= n <= MaxAttempts
    ensures forall j :: 0 <= j < n - 1 ==> !AcceptedAt(caps, first, j)
    ensures n < MaxAttempts ==> AcceptedAt(caps, first, n - 1)
  {
    AttemptsFrom(caps, first, 0)
  }

  /** The text an Optimist turn contributes: the first accepted attempt, or
      the third attempt when all three are rejected. */
  function ValidatedText(caps: Capabilities, first: string): string {
    caps.optimist(PromptAt(caps, first, Attempts(caps, first) - 1))
  }

  /** The retry loop, as written for both the opening position and the later
      responses. */
  method ValidatedOptimistTurn(caps: Capabilities, first: string) returns (text: string)
    ensures text == ValidatedText(caps, first)
  {
    var prompt := first;
    var attempt := 0;
    text := "";
    while attempt < MaxAttempts
      invariant 0 <= attempt <= MaxAttempts
      invariant prompt == PromptAt(caps, first, attempt)
      invariant forall j :: 0 <= j < attempt ==> !AcceptedAt(caps, first, j)
      invariant attempt > 0 ==> text == caps.optimist(PromptAt(caps, first, attempt - 1))
    {
      text := caps.optimist(prompt);
      var validation := caps.validate(text);
      if validation.isValid {
        assert Attempts(caps, first) == attempt + 1;
        return;
      }
      prompt := prompt + FeedbackNote(validation);
      attempt := attempt + 1;
    }
  }

  lemma PrefixTransitive(a: string, b: string, c: string)
    requires a <= b && b <= c
    ensures a <= c
  {
  }

  /** Each retry only appends to the prompt. */
  lemma PromptGrows(caps: Capabilities, first: string, k: nat)
    ensures PromptAt(caps, first, k) <= PromptAt(caps, first, k + 1)
  {
    var prev := PromptAt(caps, first, k);
    var note := FeedbackNote(caps.validate(caps.optimist(prev)));
    assert PromptAt(caps, first, k + 1) == prev + note;
    assert (prev + note)[..|prev|] == prev;
  }

  /** The prompt is never shortened: each attempt's prompt extends every
      earlier one, and so starts with the first prompt. */
  lemma {:induction false} PromptNeverShrinks(caps: Capabilities, first: string, j: nat, k: nat)
    requires j <= k
    ensures PromptAt(caps, first, j) <= PromptAt(caps, first, k)
    ensures first <= PromptAt(caps, first, k)
    decreases k, j
  {
    if j < k {
      PromptNeverShrinks(caps, first, j, k - 1);
      PromptGrows(caps, first, k - 1);
      PrefixTransitive(PromptAt(caps, first, j), PromptAt(caps, first, k - 1), PromptAt(caps, first, k));
    }
    if 0 < j {
      PromptNeverShrinks(caps, first, 0, j);
      PrefixTransitive(first, PromptAt(caps, first, j), PromptAt(caps, first, k));
    }
  }

  /** A rejected attempt's prompt is followed by exactly that attempt's
      feedback; an accepted attempt ends the loop with its own text. */
  lemma RetryStep(caps: Capabilities, first: string, k: nat)
    requires k + 1 < Attempts(caps, first)
    ensures !AcceptedAt(caps, first, k)
    ensures PromptAt(caps, first, k + 1) == PromptAt(caps, first, k)
              + FeedbackNote(caps.validate(caps.optimist(PromptAt(caps, first, k))))
  {
  }

  // ---------------------------------------------------------------------
  // The transcript
  // ---------------------------------------------------------------------

  /** `e` is the beginning of a message of `role` in `log`. */
  ghost predicate ExcerptOf(e: string, log: seq<Turn>, role: Role) {
    exists i :: 0 <= i < |log| && log[i].role == role && e <= log[i].message
  }

  lemma ExcerptOfLonger(e: string, log: seq<Turn>, role: Role)
    requires |log| > 0 && ExcerptOf(e, log[..|log| - 1], role)
    ensures ExcerptOf(e, log, role)
  {
    var i :| 0 <= i < |log| - 1 && log[..|log| - 1][i].role == role && e <= log[..|log| - 1][i].message;
    assert log[i] == log[..|log| - 1][i];
  }

  /** The turns of `role`, in log order. */
  function OfRole(log: seq<Turn>, role: Role): (r: seq<Turn>)
    ensures |r| <= |log|
    ensures forall t :: t in r <==> t in log && t.role == role
  {
    if |log| == 0 then []
    else
      var init := OfRole(log[..|log| - 1], role);
      var t := log[|log| - 1];
      assert log == log[..|log| - 1] + [t];
      if t.role == role then init + [t] else init
  }

  /** The first 100 characters of every message of `role`, in order. */
  function Excerpts(log: seq<Turn>, role: Role): (r: seq<string>)
    ensures |r| <= |log|
    ensures forall k :: 0 <= k < |r| ==> |r[k]| <= ExcerptLength && ExcerptOf(r[k], log, role)
  {
    if |log| == 0 then []
    else
      var init := Excerpts(log[..|log| - 1], role);
      var t := log[|log| - 1];
      assert forall k :: 0 <= k < |init| ==> ExcerptOf(init[k], log, role) by {
        forall k | 0 <= k < |init| ensures ExcerptOf(init[k], log, role) {
          ExcerptOfLonger(init[k], log, role);
        }
      }
      if t.role == role then init + [Take(t.message, ExcerptLength)] else init
  }

  /** Every turn of `role` contributes exactly its first 100 characters, in
      log order, and nothing else contributes. */
  lemma {:induction false} ExcerptsAreTakes(log: seq<Turn>, role: Role)
    ensures |Excerpts(log, role)| == |OfRole(log, role)|
    ensures forall k :: 0 <= k < |Excerpts(log, role)| ==>
      Excerpts(log, role)[k] == Take(OfRole(log, role)[k].message, ExcerptLength)
    decreases |log|
  {
    if |log| > 0 {
      ExcerptsAreTakes(log[..|log| - 1], role);
    }
  }

  /** The summary of one side's earlier statements that its next prompt quotes. */
  function Digest(log: seq<Turn>, role: Role): string {
    Join(Excerpts(log, role), " ")
  }

  /** The turn the orchestrator appends to a transcript `prefix`: round 1 is
      the opening and the challenge, every later round a response to the
      Skeptic's last message and a counter to the Optimist's. */
  function NextTurn(caps: Capabilities, prefix: seq<Turn>): Turn {
    var i := |prefix|;
    var round := i / 2 + 1;
    if i == 0 then Turn(1, Optimist, ValidatedText(caps, caps.openingPrompt))
    else if i == 1 then Turn(1, Skeptic, caps.skeptic(caps.challengePrompt(prefix[0].message)))
    else if i % 2 == 0 then
      Turn(round, Optimist,
           ValidatedText(caps, caps.responsePrompt(prefix[i - 1].message, round, Digest(prefix, Optimist))))
    else
      Turn(round, Skeptic,
           caps.skeptic(caps.counterPrompt(prefix[i - 1].message, round, Digest(prefix, Skeptic))))
  }

  /** Every turn of `log` is the one the orchestrator appends at that point. */
  ghost predicate Follows(caps: Capabilities, log: seq<Turn>) {
    |log| == 0 || (Follows(caps, log[..|log| - 1]) && log[|log| - 1] == NextTurn(caps, log[..|log| - 1]))
  }

  lemma FollowsExtend(caps: Capabilities, log: seq<Turn>, t: Turn)
    requires Follows(caps, log) && t == NextTurn(caps, log)
    ensures Follows(caps, log + [t])
  {
    assert (log + [t])[..|log|] == log;
  }

  lemma {:induction false} FollowsAt(caps: Capabilities, log: seq<Turn>, i: int)
    requires Follows(caps, log) && 0 <= i < |log|
    ensures log[i] == NextTurn(caps, log[..i])
    decreases |log|
  {
    if i < |log| - 1 {
      FollowsAt(caps, log[..|log| - 1], i);
      assert log[..|log| - 1][..i] == log[..i];
    }
  }

  lemma TranscriptShape(caps: Capabilities, log: seq<Turn>)
    requires Follows(caps, log)
    ensures forall i :: 0 <= i < |log| ==> log[i].round == i / 2 + 1
    ensures forall i :: 0 <= i < |log| ==> (log[i].role == Optimist <==> i % 2 == 0)
    ensures forall i, j :: 0 <= i <= j < |log| ==> log[i].round <= log[j].round
  {
    forall i | 0 <= i < |log| ensures log[i].round == i / 2 + 1 && (log[i].role == Optimist <==> i % 2 == 0) {
      FollowsAt(caps, log, i);
    }
  }

  // ---------------------------------------------------------------------
  // Convergence
  // ---------------------------------------------------------------------

  /** Number of (turn, keyword) pairs with the keyword in the turn's
      lower-cased message. */
  function AgreementHits(turns: seq<Turn>): nat {
    if |turns| == 0 then 0
    else AgreementHits(turns[..|turns| - 1])
         + CountPresent(AgreementKeywords, Lower(turns[|turns| - 1].message))
  }

  /** Whether the last four turns hold at least two agreement phrases. */
  function CheckConvergence(log: seq<Turn>): (c: bool)
    ensures |log| < 4 ==> !c
  {
    if |log| < 4 then false else AgreementHits(log[|log| - 4..]) >= 2
  }

  /** The distinct agreement keywords of each turn, added up. */
  ghost function DistinctHits(turns: seq<Turn>): nat {
    if |turns| == 0 then 0
    else DistinctHits(turns[..|turns| - 1])
         + |PresentSet(AgreementKeywords, Lower(turns[|turns| - 1].message))|
  }

  lemma KeywordListsDistinct()
    ensures NoDup(AgreementKeywords)
    ensures NoDup(PositiveKeywords) && NoDup(NegativeKeywords)
  {
  }

  lemma {:induction false} HitsAreDistinct(turns: seq<Turn>)
    ensures AgreementHits(turns) == DistinctHits(turns)
    decreases |turns|
  {
    if |turns| > 0 {
      HitsAreDistinct(turns[..|turns| - 1]);
      KeywordListsDistinct();
      CountPresentIsCard(AgreementKeywords, Lower(turns[|turns| - 1].message));
    }
  }

  /** Convergence needs four turns, and each keyword counts at most once per
      message: it is the number of distinct keywords per message, summed
      over the last four turns, that must reach two. */
  lemma ConvergenceCountsDistinctKeywords(log: seq<Turn>)
    ensures CheckConvergence(log) <==> |log| >= 4 && DistinctHits(log[|log| - 4..]) >= 2
  {
    if |log| >= 4 {
      HitsAreDistinct(log[|log| - 4..]);
    }
  }

  /** The convergence counter after the check of round `r`: it grows by one
      on a positive check and drops to zero on a negative one. The check of
      round r sees the transcript up to that round's Optimist turn. */
  function CounterAt(log: seq<Turn>, r: int): nat
    requires r <= 1 || 2 * r - 1 <= |log|
    decreases r
  {
    if r < 2 then 0
    else if CheckConvergence(log[..2 * r - 1]) then CounterAt(log, r - 1) + 1
    else 0
  }

  /** The debate stops in round `r`: the check passed and the counter reached
      the threshold. */
  predicate Stops(log: seq<Turn>, r: int, threshold: int)
    requires r <= 1 || 2 * r - 1 <= |log|
  {
    2 <= r && CheckConvergence(log[..2 * r - 1]) && CounterAt(log, r) >= threshold
  }

  lemma {:induction false} CounterPrefix(log: seq<Turn>, ext: seq<Turn>, r: int)
    requires log <= ext && (r <= 1 || 2 * r - 1 <= |log|)
    ensures CounterAt(ext, r) == CounterAt(log, r)
    ensures Stops(ext, r, 0) == Stops(log, r, 0)
    decreases r
  {
    if r >= 2 {
      assert ext[..2 * r - 1] == log[..2 * r - 1];
      CounterPrefix(log, ext, r - 1);
    }
  }

  lemma StopsPrefix(log: seq<Turn>, ext: seq<Turn>, r: int, threshold: int)
    requires log <= ext && (r <= 1 || 2 * r - 1 <= |log|)
    ensures Stops(ext, r, threshold) == Stops(log, r, threshold)
  {
    CounterPrefix(log, ext, r);
    if r >= 2 {
      assert ext[..2 * r - 1] == log[..2 * r - 1];
    }
  }

  /** The counter of round r is at most r - 2: the check of round 2 sees
      only three turns and always fails. */
  lemma {:induction false} CounterBound(log: seq<Turn>, r: int)
    requires r <= 1 || 2 * r - 1 <= |log|
    ensures r >= 2 ==> CounterAt(log, r) <= r - 2
    decreases r
  {
    if r > 2 {
      CounterBound(log, r - 1);
    }
  }

  /** A debate can converge no earlier than round 3, and no earlier than
      round 2 + threshold. */
  lemma ConvergenceRoundBound(log: seq<Turn>, r: int, threshold: int)
    requires 2 * r - 1 <= |log| && Stops(log, r, threshold)
    ensures r >= 3 && r >= 2 + threshold
  {
    CounterBound(log, r);
  }

  // ---------------------------------------------------------------------
  // Running a debate
  // ---------------------------------------------------------------------

  /** The round numbers 1 to n. */
  function RoundsUpTo(n: nat): (s: set<int>)
    ensures forall r :: r in s <==> 1 <= r <= n
    ensures |s| == n
  {
    if n == 0 then {} else RoundsUpTo(n - 1) + {n}
  }

  /** The distinct round numbers of a transcript. */
  function RoundNumbers(log: seq<Turn>): set<int> {
    set t | t in log :: t.round
  }

  /** The number of distinct round numbers of a transcript is its last round. */
  lemma RoundCount(caps: Capabilities, log: seq<Turn>)
    requires Follows(caps, log) && |log| > 0
    ensures |RoundNumbers(log)| == log[|log| - 1].round
  {
    TranscriptShape(caps, log);
    var last := log[|log| - 1].round;
    var rounds := RoundNumbers(log);
    forall r | r in RoundsUpTo(last) ensures r in rounds {
      assert log[2 * r - 2].round == r;
    }
    assert rounds == RoundsUpTo(last);
  }

  lemma OpeningRoles(caps: Capabilities, log: seq<Turn>)
    requires Follows(caps, log) && |log| >= 2
    ensures log[0].role == Optimist && log[1].role == Skeptic
  {
    FollowsAt(caps, log, 0);
    FollowsAt(caps, log, 1);
  }

  /** The state at the top of round `round`: rounds 1 to round - 1 are in
      the transcript, the counter is that of round - 1, and no earlier round
      stopped the debate. */
  ghost predicate Running(caps: Capabilities, log: seq<Turn>, round: int, counter: int, threshold: int) {
    && 2 <= round && |log| == 2 * (round - 1)
    && Follows(caps, log)
    && counter == CounterAt(log, round - 1)
    && forall q :: 2 <= q < round ==> !Stops(log, q, threshold)
  }

  lemma OpeningStep(caps: Capabilities, opening: string, challenge: string, threshold: int)
    requires opening == ValidatedText(caps, caps.openingPrompt)
    requires challenge == caps.skeptic(caps.challengePrompt(opening))
    ensures Running(caps, [Turn(1, Optimist, opening), Turn(1, Skeptic, challenge)], 2, 0, threshold)
  {
    FollowsExtend(caps, [], Turn(1, Optimist, opening));
    assert [Turn(1, Optimist, opening)] == [] + [Turn(1, Optimist, opening)];
    FollowsExtend(caps, [Turn(1, Optimist, opening)], Turn(1, Skeptic, challenge));
  }

  /** The state right after round `round`'s response, with the counter of
      that round: earlier rounds did not stop the debate. */
  ghost predicate Responded(caps: Capabilities, log: seq<Turn>, round: int, counter: int, threshold: int) {
    && 2 <= round && |log| == 2 * round - 1
    && Follows(caps, log)
    && counter == CounterAt(log, round)
    && forall q :: 2 <= q < round ==> !Stops(log, q, threshold)
  }

  /** Appending round `round`'s response: the counter of that round follows
      the check on the longer transcript, and earlier rounds are unaffected. */
  lemma ResponseStep(caps: Capabilities, log: seq<Turn>, round: int, counter: int, threshold: int,
                     response: string, ext: seq<Turn>)
    requires Running(caps, log, round, counter, threshold)
    requires response == ValidatedText(
      caps, caps.responsePrompt(log[|log| - 1].message, round, Digest(log, Optimist)))
    requires ext == log + [Turn(round, Optimist, response)]
    ensures Responded(caps, ext, round, if CheckConvergence(ext) then counter + 1 else 0, threshold)
  {
    assert |log| / 2 + 1 == round;
    FollowsExtend(caps, log, Turn(round, Optimist, response));
    CounterPrefix(log, ext, round - 1);
    forall q | 2 <= q < round ensures !Stops(ext, q, threshold) {
      StopsPrefix(log, ext, q, threshold);
    }
    assert ext[..2 * round - 1] == ext;
  }

  /** A positive check that brings the counter to the threshold stops the
      debate in this round. */
  lemma StopStep(caps: Capabilities, log: seq<Turn>, round: int, counter: int, threshold: int)
    requires Responded(caps, log, round, counter, threshold)
    requires CheckConvergence(log) && counter >= threshold
    ensures StoppedAt(caps, log, round, threshold)
  {
    assert log[..2 * round - 1] == log;
  }

  lemma Halves(n: int, round: int)
    requires n == 2 * round - 1
    ensures n / 2 == round - 1 && n % 2 == 1
  {
  }

  lemma NextSkepticTurn(caps: Capabilities, log: seq<Turn>, round: int)
    requires 2 <= round && |log| == 2 * round - 1
    ensures NextTurn(caps, log)
      == Turn(round, Skeptic, caps.skeptic(caps.counterPrompt(log[|log| - 1].message, round, Digest(log, Skeptic))))
  {
    Halves(|log|, round);
  }

  /** Otherwise the Skeptic's counter completes the round. */
  lemma CounterStep(caps: Capabilities, log: seq<Turn>, round: int, counter: int, threshold: int,
                    reply: string, ext: seq<Turn>)
    requires Responded(caps, log, round, counter, threshold)
    requires !(CheckConvergence(log) && counter >= threshold)
    requires reply == caps.skeptic(caps.counterPrompt(log[|log| - 1].message, round, Digest(log, Skeptic)))
    requires ext == log + [Turn(round, Skeptic, reply)]
    ensures Running(caps, ext, round + 1, counter, threshold)
  {
    assert log[..2 * round - 1] == log;
    assert !Stops(log, round, threshold);
    NextSkepticTurn(caps, log, round);
    FollowsExtend(caps, log, Turn(round, Skeptic, reply));
    CounterPrefix(log, ext, round);
    forall q | 2 <= q <= round ensures !Stops(ext, q, threshold) {
      StopsPrefix(log, ext, q, threshold);
    }
  }

  /** How the rounds of a debate end: the transcript is the one the
      orchestrator builds; a converged debate stops right after the response
      of the first round whose check brings the counter to the threshold; any
      other debate runs to `maxRounds` (at least round 1) with no such round. */
  ghost predicate DebateOutcome(caps: Capabilities, maxRounds: int, threshold: int,
                                log: seq<Turn>, converged: bool, convergenceRound: Option<int>) {
    && Follows(caps, log)
    && (converged <==> convergenceRound.Some?)
    && (converged ==>
          var r := convergenceRound.value;
          && 3 <= r <= maxRounds && |log| == 2 * r - 1
          && Stops(log, r, threshold)
          && forall q :: 2 <= q < r ==> !Stops(log, q, threshold))
    && (!converged ==>
          && |log| == 2 * Max(1, maxRounds)
          && forall q :: 2 <= q <= maxRounds ==> !Stops(log, q, threshold))
  }

  /** The debate stopped in round `round`, right after its response. */
  ghost predicate StoppedAt(caps: Capabilities, log: seq<Turn>, round: int, threshold: int) {
    && 2 <= round && |log| == 2 * round - 1 && Follows(caps, log)
    && Stops(log, round, threshold)
    && forall q :: 2 <= q < round ==> !Stops(log, q, threshold)
  }

  /** One round from 2 on: the validated response to `challenge`, the
      convergence check with its counter, and, unless that ends the debate,
      the Skeptic's counter, which becomes the next challenge. */
  method PlayRound(caps: Capabilities, log: seq<Turn>, challenge: string, round: int,
                   counter: int, threshold: int)
    returns (ext: seq<Turn>, nextCounter: int, stop: bool, reply: string)
    requires Running(caps, log, round, counter, threshold)
    requires challenge == log[|log| - 1].message
    ensures stop ==> StoppedAt(caps, ext, round, threshold)
    ensures !stop ==> Running(caps, ext, round + 1, nextCounter, threshold)
                      && reply == ext[|ext| - 1].message
  {
    var response := ValidatedOptimistTurn(
      caps, caps.responsePrompt(challenge, round, Digest(log, Optimist)));
    ext := log + [Turn(round, Optimist, response)];
    var agreed := CheckConvergence(ext);
    nextCounter := if agreed then counter + 1 else 0;
    ResponseStep(caps, log, round, counter, threshold, response, ext);
    if agreed && nextCounter >= threshold {
      StopStep(caps, ext, round, nextCounter, threshold);
      stop, reply := true, "";
      return;
    }
    stop := false;
    reply := caps.skeptic(caps.counterPrompt(response, round, Digest(ext, Skeptic)));
    var done := ext + [Turn(round, Skeptic, reply)];
    CounterStep(caps, ext, round, nextCounter, threshold, reply, done);
    ext := done;
  }

  lemma ConvergedOutcome(caps: Capabilities, maxRounds: int, threshold: int, log: seq<Turn>, round: int)
    requires round <= maxRounds && StoppedAt(caps, log, round, threshold)
    ensures DebateOutcome(caps, maxRounds, threshold, log, true, Some(round))
  {
    ConvergenceRoundBound(log, round, threshold);
  }

  lemma ExhaustedOutcome(caps: Capabilities, maxRounds: int, threshold: int, log: seq<Turn>,
                         round: int, counter: int)
    requires round <= Max(maxRounds + 1, 2) && maxRounds < round
    requires Running(caps, log, round, counter, threshold)
    ensures DebateOutcome(caps, maxRounds, threshold, log, false, None)
  {
    assert round == Max(maxRounds + 1, 2);
  }

  /** The rounds of the debate: the opening and the challenge, then round
      after round until one ends in convergence or `maxRounds` is done. */
  method DebateRounds(caps: Capabilities, maxRounds: int, threshold: int)
    returns (log: seq<Turn>, converged: bool, convergenceRound: Option<int>)
    ensures DebateOutcome(caps, maxRounds, threshold, log, converged, convergenceRound)
  {
    log := [];
    var counter := 0;
    converged := false;
    convergenceRound := None;

    var opening := ValidatedOptimistTurn(caps, caps.openingPrompt);
    log := log + [Turn(1, Optimist, opening)];
    var challenge := caps.skeptic(caps.challengePrompt(opening));
    log := log + [Turn(1, Skeptic, challenge)];
    OpeningStep(caps, opening, challenge, threshold);

    var round := 2;
    while round <= maxRounds
      invariant round <= Max(maxRounds + 1, 2)
      invariant Running(caps, log, round, counter, threshold)
      invariant challenge == log[|log| - 1].message
      invariant !converged && convergenceRound.None?
    {
      var stop;
      log, counter, stop, challenge := PlayRound(caps, log, challenge, round, counter, threshold);
      if stop {
        converged := true;
        convergenceRound := Some(round);
        ConvergedOutcome(caps, maxRounds, threshold, log, round);
        break;
      }
      round := round + 1;
    }
    if !converged {
      ExhaustedOutcome(caps, maxRounds, threshold, log, round, counter);
    }
  }

  lemma OutcomeShape(caps: Capabilities, maxRounds: int, threshold: int,
                     log: seq<Turn>, converged: bool, convergenceRound: Option<int>)
    requires DebateOutcome(caps, maxRounds, threshold, log, converged, convergenceRound)
    ensures |log| >= 2 && log[0].role == Optimist && log[1].role == Skeptic
    ensures |RoundNumbers(log)| == log[|log| - 1].round
  {
    OpeningRoles(caps, log);
    RoundCount(caps, log);
  }

  /** A whole debate: its rounds, the number of distinct rounds held, and
      the consensus drawn from the transcript. */
  method RunDebate(caps: Capabilities, maxRounds: int, threshold: int)
    returns (log: seq<Turn>, totalRounds: int, converged: bool, convergenceRound: Option<int>,
             agreements: seq<string>, disagreements: seq<string>, verdict: Verdict, confidence: Confidence)
    ensures DebateOutcome(caps, maxRounds, threshold, log, converged, convergenceRound)
    ensures totalRounds == log[|log| - 1].round
    ensures ConsensusOf(log, converged, agreements, disagreements, verdict, confidence)
  {
    log, converged, convergenceRound := DebateRounds(caps, maxRounds, threshold);
    OutcomeShape(caps, maxRounds, threshold, log, converged, convergenceRound);
    totalRounds := |RoundNumbers(log)|;
    agreements, disagreements, verdict, confidence := SynthesizeConsensus(log, converged);
  }

  // ---------------------------------------------------------------------
  // Consensus: sentence extraction
  // ---------------------------------------------------------------------

  /** Some cue occurs in the lower-cased text. */
  predicate Cued(s: string, cues: seq<string>) {
    AnyPresent(cues, Lower(s))
  }

  /** The stripped first sentence carrying a cue, if any. */
  function FirstCued(sentences: seq<string>, cues: seq<string>): (r: Option<string>)
    ensures r.None? <==> forall k :: 0 <= k < |sentences| ==> !Cued(sentences[k], cues)
  {
    if |sentences| == 0 then None
    else if Cued(sentences[0], cues) then Some(Strip(sentences[0]))
    else
      var r := FirstCued(sentences[1..], cues);
      assert forall k :: 1 <= k < |sentences| ==> sentences[k] == sentences[1..][k - 1];
      r
  }

  lemma {:induction false} FirstCuedAt(sentences: seq<string>, cues: seq<string>, j: nat)
    requires j < |sentences| && Cued(sentences[j], cues)
    requires forall k :: 0 <= k < j ==> !Cued(sentences[k], cues)
    ensures FirstCued(sentences, cues) == Some(Strip(sentences[j]))
    decreases j
  {
    if j > 0 {
      assert !Cued(sentences[0], cues);
      FirstCuedAt(sentences[1..], cues, j - 1);
    }
  }

  /** `x` is the stripped form of a '.'-separated segment of `msg` that
      carries one of `cues`. */
  predicate CuedSegment(x: string, msg: string, cues: seq<string>) {
    exists p :: p in Split(msg, '.') && Cued(p, cues) && x == Strip(p)
  }

  /** What the extraction loop appends, in turn order: for every turn whose
      lower-cased message carries a turn cue, the first of its sentences
      that carries a sentence cue, stripped. */
  function Collect(turns: seq<Turn>, turnCues: seq<string>, sentenceCues: seq<string>): (items: seq<string>)
    ensures |items| <= |turns|
  {
    if |turns| == 0 then []
    else
      var init := Collect(turns[..|turns| - 1], turnCues, sentenceCues);
      var msg := turns[|turns| - 1].message;
      if Cued(msg, turnCues) then
        match FirstCued(Split(msg, '.'), sentenceCues)
        case Some(s) => init + [s]
        case None => init
      else init
  }

  lemma FirstCuedIsSegment(sentences: seq<string>, cues: seq<string>)
    requires FirstCued(sentences, cues).Some?
    ensures exists p :: p in sentences && Cued(p, cues) && FirstCued(sentences, cues).value == Strip(p)
    decreases |sentences|
  {
    if !Cued(sentences[0], cues) {
      FirstCuedIsSegment(sentences[1..], cues);
    }
  }

  /** Every collected item is a stripped, cue-bearing segment of the message
      of a turn that carries a turn cue. */
  lemma {:induction false} CollectedAreSegments(turns: seq<Turn>, turnCues: seq<string>,
                                                sentenceCues: seq<string>)
    ensures forall x :: x in Collect(turns, turnCues, sentenceCues) ==>
      exists i :: 0 <= i < |turns| && Cued(turns[i].message, turnCues)
                  && FirstCued(Split(turns[i].message, '.'), sentenceCues) == Some(x)
                  && CuedSegment(x, turns[i].message, sentenceCues)
    decreases |turns|
  {
    if |turns| > 0 {
      var init := turns[..|turns| - 1];
      var last := |turns| - 1;
      CollectedAreSegments(init, turnCues, sentenceCues);
      forall x | x in Collect(turns, turnCues, sentenceCues)
        ensures exists i :: 0 <= i < |turns| && Cued(turns[i].message, turnCues)
                            && FirstCued(Split(turns[i].message, '.'), sentenceCues) == Some(x)
                            && CuedSegment(x, turns[i].message, sentenceCues)
      {
        if x in Collect(init, turnCues, sentenceCues) {
          var i :| 0 <= i < |init| && Cued(init[i].message, turnCues)
                   && FirstCued(Split(init[i].message, '.'), sentenceCues) == Some(x)
                   && CuedSegment(x, init[i].message, sentenceCues);
          assert turns[i] == init[i];
        } else {
          var msg := turns[last].message;
          FirstCuedIsSegment(Split(msg, '.'), sentenceCues);
          assert CuedSegment(x, turns[last].message, sentenceCues);
        }
      }
    }
  }

  /** The converse: every turn whose lower-cased message carries a turn cue
      and that has a cue-bearing sentence contributes that first sentence,
      stripped, to the collected items. */
  lemma {:induction false} CollectComplete(turns: seq<Turn>, turnCues: seq<string>,
                                           sentenceCues: seq<string>, i: int)
    requires 0 <= i < |turns| && Cued(turns[i].message, turnCues)
    requires FirstCued(Split(turns[i].message, '.'), sentenceCues).Some?
    ensures FirstCued(Split(turns[i].message, '.'), sentenceCues).value
            in Collect(turns, turnCues, sentenceCues)
    decreases |turns|
  {
    var init := turns[..|turns| - 1];
    if i < |turns| - 1 {
      assert init[i] == turns[i];
      CollectComplete(init, turnCues, sentenceCues, i);
    }
  }

  /** A turn adds an item: its lower-cased message carries a turn cue and one
      of its sentences carries a sentence cue. */
  predicate Contributes(t: Turn, turnCues: seq<string>, sentenceCues: seq<string>) {
    Cued(t.message, turnCues) && FirstCued(Split(t.message, '.'), sentenceCues).Some?
  }

  /** The turns that add an item, in order. */
  function Contributing(turns: seq<Turn>, turnCues: seq<string>, sentenceCues: seq<string>): (r: seq<Turn>)
    ensures |r| <= |turns|
    ensures forall t :: t in r <==> t in turns && Contributes(t, turnCues, sentenceCues)
  {
    if |turns| == 0 then []
    else
      var init := Contributing(turns[..|turns| - 1], turnCues, sentenceCues);
      var t := turns[|turns| - 1];
      assert turns == turns[..|turns| - 1] + [t];
      if Contributes(t, turnCues, sentenceCues) then init + [t] else init
  }

  /** Exactly one item per contributing turn, in turn order: the k-th item is
      the first cue-bearing sentence, stripped, of the k-th contributing turn
      (the inner loop's `break`). */
  lemma {:induction false} CollectIsFirstCued(turns: seq<Turn>, turnCues: seq<string>,
                                              sentenceCues: seq<string>)
    ensures |Collect(turns, turnCues, sentenceCues)| == |Contributing(turns, turnCues, sentenceCues)|
    ensures forall k :: 0 <= k < |Collect(turns, turnCues, sentenceCues)| ==>
      FirstCued(Split(Contributing(turns, turnCues, sentenceCues)[k].message, '.'), sentenceCues)
        == Some(Collect(turns, turnCues, sentenceCues)[k])
    decreases |turns|
  {
    if |turns| > 0 {
      var init := turns[..|turns| - 1];
      var t := turns[|turns| - 1];
      CollectIsFirstCued(init, turnCues, sentenceCues);
      var items, from := Collect(init, turnCues, sentenceCues), Contributing(init, turnCues, sentenceCues);
      if Contributes(t, turnCues, sentenceCues) {
        var s := FirstCued(Split(t.message, '.'), sentenceCues).value;
        assert Collect(turns, turnCues, sentenceCues) == items + [s];
        assert Contributing(turns, turnCues, sentenceCues) == from + [t];
      } else {
        assert Collect(turns, turnCues, sentenceCues) == items;
        assert Contributing(turns, turnCues, sentenceCues) == from;
      }
    }
  }

  /** The extraction loops: over the turns, and within a cued turn over its
      sentences until the first cued one; then the distinct items, at most
      `cap` of them. Which distinct items survive the cap is left open. */
  method ExtractSentences(turns: seq<Turn>, turnCues: seq<string>, sentenceCues: seq<string>, cap: nat)
    returns (items: seq<string>)
    ensures NoDup(items)
    ensures forall x :: x in items ==> x in Collect(turns, turnCues, sentenceCues)
    ensures |items| == Min(cap, |set x | x in Collect(turns, turnCues, sentenceCues)|)
  {
    var found: seq<string> := [];
    for i := 0 to |turns|
      invariant found == Collect(turns[..i], turnCues, sentenceCues)
    {
      assert turns[..i + 1][..i] == turns[..i];
      var msg := turns[i].message;
      if AnyPresent(turnCues, Lower(msg)) {
        var sentences := Split(msg, '.');
        var j := 0;
        while j < |sentences|
          invariant 0 <= j <= |sentences|
          invariant forall k :: 0 <= k < j ==> !Cued(sentences[k], sentenceCues)
          invariant found == Collect(turns[..i], turnCues, sentenceCues)
        {
          if AnyPresent(sentenceCues, Lower(sentences[j])) {
            FirstCuedAt(sentences, sentenceCues, j);
            found := found + [Strip(sentences[j])];
            break;
          }
          j := j + 1;
        }
      }
      assert found == Collect(turns[..i + 1], turnCues, sentenceCues);
    }
    assert turns[..|turns|] == turns;
    var distinct := Distinct(found);
    NoDupCard(distinct);
    assert (set x | x in distinct) == (set x | x in found);
    items := Take(distinct, cap);
    forall a, b | 0 <= a < b < |items| ensures items[a] != items[b] {
      assert items[a] == distinct[a] && items[b] == distinct[b];
    }
  }

  /** The turns of the last two rounds. */
  function Recent(log: seq<Turn>): (r: seq<Turn>)
    requires |log| > 0
    ensures forall t :: t in r ==> t in log && t.round >= log[|log| - 1].round - 1
  {
    var last := log[|log| - 1].round;
    Filter(log, last - 1)
  }

  function Filter(log: seq<Turn>, from: int): (r: seq<Turn>)
    ensures forall t :: t in r <==> t in log && t.round >= from
  {
    if |log| == 0 then []
    else
      var init := Filter(log[..|log| - 1], from);
      var t := log[|log| - 1];
      assert log == log[..|log| - 1] + [t];
      if t.round >= from then init + [t] else init
  }

  // ---------------------------------------------------------------------
  // Consensus: verdict and confidence
  // ---------------------------------------------------------------------

  /** All messages, lower-cased, joined with spaces. */
  function Transcript(log: seq<Turn>): string {
    Join(seq(|log|, i requires 0 <= i < |log| => Lower(log[i].message)), " ")
  }

  /** The lexicon verdict: a side wins when it has more than 1.5 times as
      many distinct keywords in the transcript as the other, qualified as
      cautious when the debate did not converge. */
  function DetermineVerdict(log: seq<Turn>, converged: bool): (v: Verdict)
    ensures var text := Transcript(log);
      var pos := |PresentSet(PositiveKeywords, text)| as real;
      var neg := |PresentSet(NegativeKeywords, text)| as real;
      && ((v == Buy || v == CautiousBuy) <==> pos > neg * 1.5)
      && ((v == Sell || v == CautiousSell) <==> !(pos > neg * 1.5) && neg > pos * 1.5)
      && (v == Hold <==> !(pos > neg * 1.5) && !(neg > pos * 1.5))
      && ((v == CautiousBuy || v == CautiousSell) <==> !converged && v != Hold)
  {
    var text := Transcript(log);
    var pos := CountPresent(PositiveKeywords, text);
    var neg := CountPresent(NegativeKeywords, text);
    KeywordListsDistinct();
    CountPresentIsCard(PositiveKeywords, text);
    CountPresentIsCard(NegativeKeywords, text);
    if pos as real > neg as real * 1.5 then (if converged then Buy else CautiousBuy)
    else if neg as real > pos as real * 1.5 then (if converged then Sell else CautiousSell)
    else Hold
  }

  /** Equal keyword counts, in particular none at all, give Hold. */
  lemma BalancedTranscriptHolds(log: seq<Turn>, converged: bool)
    requires |PresentSet(PositiveKeywords, Transcript(log))| == |PresentSet(NegativeKeywords, Transcript(log))|
    ensures DetermineVerdict(log, converged) == Hold
  {
  }

  function ConfidenceLevel(converged: bool, disagreements: seq<string>): (c: Confidence)
    ensures c == High <==> converged && |disagreements| == 0
    ensures c == Medium <==> converged && |disagreements| > 0
    ensures c == Low <==> !converged
  {
    if converged && |disagreements| == 0 then High
    else if converged then Medium
    else Low
  }

  /** A cautious verdict always comes with low confidence, and a converged
      debate never gives a cautious verdict. */
  lemma CautiousMeansLowConfidence(log: seq<Turn>, converged: bool, disagreements: seq<string>)
    ensures DetermineVerdict(log, converged) in {CautiousBuy, CautiousSell}
            ==> ConfidenceLevel(converged, disagreements) == Low
    ensures converged ==> DetermineVerdict(log, converged) in {Buy, Sell, Hold}
  {
  }

  /** What the synthesis step produces from a transcript. */
  ghost predicate ConsensusOf(log: seq<Turn>, converged: bool, agreements: seq<string>,
                              disagreements: seq<string>, verdict: Verdict, confidence: Confidence)
    requires |log| > 0
  {
    var agreed := Collect(log, AgreementTurnCues, AgreementSentenceCues);
    var disputed := Collect(Recent(log), DisagreementTurnCues, DisagreementSentenceCues);
    && NoDup(agreements)
    && (forall x :: x in agreements ==> x in agreed)
    && |agreements| == Min(MaxAgreements, |set x | x in agreed|)
    && NoDup(disagreements)
    && (forall x :: x in disagreements ==> x in disputed)
    && |disagreements| == Min(MaxDisagreements, |set x | x in disputed|)
    && verdict == DetermineVerdict(log, converged)
    && confidence == ConfidenceLevel(converged, disagreements)
  }

  /** Agreements from the whole transcript, disagreements from the last two
      rounds, the verdict and the confidence label. */
  method SynthesizeConsensus(log: seq<Turn>, converged: bool)
    returns (agreements: seq<string>, disagreements: seq<string>, verdict: Verdict, confidence: Confidence)
    requires exists i :: 0 <= i < |log| && log[i].role == Optimist
    requires exists i :: 0 <= i < |log| && log[i].role == Skeptic
    ensures |log| > 0
    ensures ConsensusOf(log, converged, agreements, disagreements, verdict, confidence)
  {
    agreements := ExtractSentences(log, AgreementTurnCues, AgreementSentenceCues, MaxAgreements);
    disagreements := ExtractSentences(Recent(log), DisagreementTurnCues, DisagreementSentenceCues,
                                      MaxDisagreements);
    verdict := DetermineVerdict(log, converged);
    confidence := ConfidenceLevel(converged, disagreements);
  }

  /** Items are one per contributing turn; disagreements come only from turns
      of the last two rounds; every item is the first cue-bearing sentence,
      stripped, of such a turn. */
  lemma ExtractedItemsOrigin(log: seq<Turn>, x: string)
    requires |log| > 0
    ensures |Collect(log, AgreementTurnCues, AgreementSentenceCues)| <= |log|
    ensures |Collect(log, AgreementTurnCues, AgreementSentenceCues)|
         == |Contributing(log, AgreementTurnCues, AgreementSentenceCues)|
    ensures x in Collect(log, AgreementTurnCues, AgreementSentenceCues) ==>
      exists i :: 0 <= i < |log| && FirstCued(Split(log[i].message, '.'), AgreementSentenceCues) == Some(x)
                  && CuedSegment(x, log[i].message, AgreementSentenceCues)
    ensures x in Collect(Recent(log), DisagreementTurnCues, DisagreementSentenceCues) ==>
      exists t :: t in log && t.round >= log[|log| - 1].round - 1
                  && FirstCued(Split(t.message, '.'), DisagreementSentenceCues) == Some(x)
                  && CuedSegment(x, t.message, DisagreementSentenceCues)
  {
    CollectIsFirstCued(log, AgreementTurnCues, AgreementSentenceCues);
    CollectedAreSegments(log, AgreementTurnCues, AgreementSentenceCues);
    var recent := Recent(log);
    CollectedAreSegments(recent, DisagreementTurnCues, DisagreementSentenceCues);
    if x in Collect(recent, DisagreementTurnCues, DisagreementSentenceCues) {
      var i :| 0 <= i < |recent| && Cued(recent[i].message, DisagreementTurnCues)
               && FirstCued(Split(recent[i].message, '.'), DisagreementSentenceCues) == Some(x)
               && CuedSegment(x, recent[i].message, DisagreementSentenceCues);
      assert recent[i] in recent;
    }
  }
}
