# VibesWAF, modelled and proved in Dafny

VibesWAF is a reverse proxy and web application firewall. This project models the parts of it
that decide: the rule expression compiler, the four-phase request pipeline, the limiters, the
CIDR structures, the challenge protocol, the certificate job queue and the stream port
allocator. Objects the program mutates are classes whose methods are proved against
specification functions or relations; what the program is for is proved about those, over
every input, every run and every interleaving.

`dafny verify dfyconfig.toml` checks everything.

| component | modules | main results |
|---|---|---|
| Rule compiler | `RuleTypes`, `RuleLexer`, `RuleParser`, `RuleReading`, `RulePrinter`, `RuleEngine`, `RuleMeaning` | `RulePrinter.RoundTrip`, `RuleEngine.Soundness`, `RuleEngine.PrintedFormCompiles`, `RuleReading.QuotedReadsBackIff`, `RuleMeaning.AsnEquals`, `RuleMeaning.AcceptedIffLeaves` |
| Expression builder | `ExpressionBuilder` | `GeneratedTextKeepsItsMeaning` |
| Request pipeline | `Decisions`, `Scoring`, `Pipeline`, `PipelineRuns`, `PipelineOutcomes`, `PipelineContext` | `EveryRun`, `RankNeverFallsAlongRun`, `IpRuleFixesActionIff`, `VerifiedIsRefusedIff`, `LeftAloneIff`, `HigherScoresRankNoLower`, `FiringRuleIsHeard`, `QuietOutcome`, all of which `PipelineContext.Execute` carries over to the mutable context |
| Limiters | `SlidingWindow`, `FloodBounds`, `TokenBucket`, `OldestFirst` | `FloodIsExact`, `PenaltyKeepsLimitIff`, `LimitPerForgiveness`, `UnrecordedIff`, `FloodAgreesWithMemory`, `AdmissionsInLife`, `IdleCallerMayBurst` |
| CIDR structures | `IpBits`, `IpTrie`, `IpReputation`, `IpAccess` | `PrefixIffMask`, `LongestMatchIsLinearScan`, `ReputationIndex.LookupIP`, `FamiliesAgreeIff`, `OverlapIffCommon`, `RunsStayDisjoint`, `MatchIsOrderIndependent`, `LookupAnswers` |
| Challenges | `ChallengeStore`, `ChallengeRuns`, `Trajectory`, `TrustedHistory` | `ChallengesAreSafe`, `MissingForAReason`, `VerifyOutcomeIff`, `SolvesPerSpan`, `StraightnessInRange`, `ReadingIsEarned`, `ReadingIsTally` |
| Certificate queue | `AcmeQueue` | `QueueIsSafe`, `QueueDrains`, `SubmissionIsFinished` |
| Stream ports | `StreamPorts` | `RunsKeepPortsSeparate`, `WrittenIff`, `EnoughPorts` |

`Outcomes` and `FiniteSets` hold what several modules share.

## Conventions

Time is an argument, non-decreasing along a run. Floating point is `real`, integers are
unbounded except where a width matters (`RuleEngine.Wrap64`). Postgres and Redis are maps.
Regular expressions, case mapping and trimming are arbitrary functions (`RuleEngine.Library`),
and so are the address parser (`IpAccess.Net`), the square root (`Trajectory.IsSqrt`) and the
key hash (`SlidingWindow.Hash`). Detector results, cookies and configuration are fixed up front
in `Pipeline.Oracle`. Texts are byte strings, one character per byte, and addresses sequences of
numbers below 256; shifting one right is halving it.

## What the proofs brought to light

- `Parse` does not ask for the end of input: anything after a complete expression that is not a
  connective is ignored (`RulePrinter.TrailingTokensAreIgnored`).
- Bare `1` and `0` become the strings `true` and `false` (`RuleReading.BareBitIsBoolean`), and
  strings keep their backslashes, so quoting gives a text back exactly when it is well escaped
  (`RuleReading.QuotedReadsBackIff`).
- The validator accepts logical nodes without operands and with unknown connectives. A validated
  tree evaluates without error exactly when short-circuit evaluation meets no such gap
  (`RuleEngine.ValidatedEvaluatesIff`), always if it has none (`RuleEngine.EvaluationIsSound`);
  the parser builds no others (`RuleEngine.CompiledIsWellFormed`).
- Numbers in rules wrap at 64 bits, so an order comparison is right for every network exactly when
  the rule's number is below 2^63 (`RuleMeaning.AsnOrderedIff`).
- A `/0` reputation entry is stored but never found (`IpTrie.DefaultRouteIsMissed`).
- IPv4 and IPv6 entries share one trie, so an IPv6 block of up to 32 bits scores IPv4 clients whose
  address begins with the same bits (`IpReputation.Ipv6BlockScoresIpv4Client`); the answer is that
  of the client's own family exactly when no block of the other family takes precedence
  (`IpReputation.FamiliesAgreeIff`).
- A block in IPv4-mapped notation makes the trie's insert index beyond the four bytes it has
  shortened the address to, which is a panic. It happens exactly when the mask is longer than the
  shortened address (`IpTrie.Trie.Insert`, `IpReputation.ReputationIndex.Reload`), for example for
  `::ffff:10.0.0.0/104` (`IpReputation.MappedBlockPanics`).
- An IP rule alone fixes the final action, except that an allow rule does not lift the challenge
  of under attack mode, whose decision is offered before the pipeline starts
  (`Pipeline.IpRuleFixesActionIff`).
- Some requests get no page from the pipeline and are not forwarded either: those of verified
  clients with an IP rule that challenges them, or allows them under attack mode, and those without
  an IP rule whose score lies between the thresholds; no others (`PipelineRuns.LeftAloneIff`, with
  `PipelineRuns.ChallengedClientIsLeftAlone` as an instance).
- When a flood penalty expires the limiter forgets the address. A penalty keeps every window within
  the limit exactly when it lasts to the last tick of the window (`FloodBounds.PenaltyKeepsLimitIff`);
  shorter ones can be configured, and then one request more than the limit, and another when the
  penalty is over, are enough (`FloodBounds.ShortPenaltyExceeds`). Whatever the penalties, each that
  expires within a window adds at most one more limit (`FloodBounds.LimitPerForgiveness`).
- At a shard's key cap the flood limiter admits addresses off the record, not only new ones but
  also stored ones without a recent timestamp. It does so exactly when the limit is positive, the
  shard is full and the address has no recorded admission in the window
  (`FloodBounds.UnrecordedIff`). Whatever the hash, enough addresses lead there
  (`FloodBounds.FullShardAdmitsUnrecorded`, `FloodBounds.EveryHashFillsUp`), and fewer than the cap
  never do (`FloodBounds.FewAddressesAreAllRecorded`).
- An entry under the empty key is never evicted and, when it is the oldest, keeps everything else
  from being evicted as well (`OldestFirst.EvictOldest`); real keys are not empty.
- The overlap check does not see rules for single addresses (`IpAccess.SingleAddressNeverBlocks`),
  so those may lie inside a later CIDR rule. The other way round, a single address inside a CIDR rule
  is refused, unless it is an IPv4 address in IPv6 notation: `/32` is appended to it as to any IPv4
  address but applies to the 128 bits of the notation, so ::/32 is checked instead
  (`IpAccess.SingleInsideIsRefusedIff`, `IpAccess.MappedSingleIsAdmitted`). Between rules that match the same client the order
  decides, and only then (`IpAccess.OrderDecidesIff`).
- The trusted history keeps the counter of an address x under `th:` + x and its cooldown under
  `th:cooldown:` + x, and takes addresses from request headers as they are. A reset of the address
  `cooldown:` + x therefore ends the cooldown of x, and a reading can grow by one for each without
  time passing (`TrustedHistory.AliasRenews`, `TrustedHistory.AliasRenewsNine`); with that many
  subtracted the reading is earned (`TrustedHistory.ReadingIsEarned`). A reading of such an alias
  itself need not be its own at all (`TrustedHistory.AliasReadsAnother`).
- With a retry limit below one a challenge still takes one wrong answer: the limit that
  `ChallengeRuns.ChallengesAreSafe` proves is the configured one, but at least one.

## Model

| member | source | states |
|---|---|---|
| `RuleLexer.Lexer.Tokenize` | internal/domain/rule/lexer.go:26-107 | the tokens, or the error with its position, are those of the recursive specification `Lex`; on success all input is consumed; terminates on every input |
| `RuleLexer.Lexer.ReadNext` | internal/domain/rule/lexer.go:29-103 | one turn of the loop advances and leaves the expected result unchanged, or fails exactly as the specification does |
| `RuleLexer.Lexer.ReadToken` | internal/domain/rule/lexer.go:35-102 | reads the token `Scan` finds and moves by its width |
| `RuleLexer.Lexer.SkipWhitespace` | internal/domain/rule/lexer.go:109-113 | stops at the first non-space without changing what the rest lexes to |
| `RuleLexer.Lexer.ReadWord` | internal/domain/rule/lexer.go:115-126 | returns the longest prefix of word characters |
| `RuleLexer.Lexer.ReadNumber` | internal/domain/rule/lexer.go:148-154 | returns the longest prefix of digits |
| `RuleLexer.Lexer.ReadString` | internal/domain/rule/lexer.go:128-146 | returns the text up to the first quote no backslash escapes, backslashes included, or reports an unterminated string |
| `RuleReading.QuotedReadsBackIff` | internal/domain/rule/lexer.go:128-146 | a text between quotes is read back as itself, whatever follows, if and only if no quote in it is unescaped and no backslash is left without a character to escape |
| `RuleReading.EscapedIffClosing` | internal/domain/rule/lexer.go:128-146 | from any point of a quoted text the reader closes at the final quote if and only if the remaining text is well escaped |
| `RuleReading.BareBitIsBoolean` | internal/domain/rule/lexer.go:88-98 | a bare 1 is read as the text true and a bare 0 as the text false, whatever follows |
| `RuleReading.ReadsToken` | internal/domain/rule/lexer.go:26-107 | every lexable token's text, properly separated, is read as that one token in front of the tokens of the rest |
| `RuleReading.LexedTokensAreLexable` | internal/domain/rule/lexer.go:26-107 | everything the lexer produces is a lexable token and the last token is the end of input |
| `RuleParser.Parser.Parse` | internal/domain/rule/parser.go:23-25 | the tree or error of the recursive grammar from the first token, with the position reached |
| `RuleParser.Parser.Expression` | internal/domain/rule/parser.go:28-49 | the OR loop builds the left-nested tree of the grammar and stops where it does |
| `RuleParser.Parser.Term` | internal/domain/rule/parser.go:52-73 | the AND loop builds the left-nested tree of the grammar and stops where it does |
| `RuleParser.Parser.Factor` | internal/domain/rule/parser.go:76-107 | NOT, parentheses and conditions as in the grammar, including the missing parenthesis error |
| `RuleParser.Parser.Condition` | internal/domain/rule/parser.go:110-168 | field, operator and value by kind of operator, with the error of whatever is missing |
| `RuleParser.Parser.List` | internal/domain/rule/parser.go:171-210 | the list loop collects the values up to the bracket, or fails where the grammar does |
| `RulePrinter.PrintedIsParsed` | internal/domain/rule/parser.go:28-107 | wherever the printed tokens of a tree stand, at each of the three precedence levels, they are parsed to that tree and exactly consumed |
| `RulePrinter.LexPrinted` | internal/domain/rule/lexer.go:26-107 | the printed text of any tree of the grammar lexes to its tokens |
| `RulePrinter.RoundTrip` | internal/domain/rule/parser.go:23-210 | print, lex and parse give back every tree of the grammar, consuming exactly the printed tokens |
| `RulePrinter.TrailingTokensAreIgnored` | internal/domain/rule/parser.go:23-25 | after a complete expression anything but a connective is ignored |
| `RulePrinter.ParsedExpressionIsWellFormed` | internal/domain/rule/parser.go:28-210 | every tree parsed from lexer output is one the round trip covers |
| `RuleEngine.Evaluator.Run` | internal/domain/rule/evaluator.go:40-87 | with whatever is cached, the answer, short-circuits and errors included, is that of the evaluation without a cache |
| `RuleEngine.Evaluator.MatchRegex` | internal/domain/rule/evaluator.go:246-268 | compiles or reuses the pattern; only patterns that compile are ever cached |
| `RuleEngine.Evaluator.Compare` | internal/domain/rule/evaluator.go:90-132 | each of the sixteen operators, through its own conversion, list loop or cached pattern, answers what the operator means; any other operator is an error |
| `RuleEngine.Evaluator.CompareNumbers` | internal/domain/rule/evaluator.go:270-292 | the four order comparisons on converted numbers, an error for any other operator |
| `RuleEngine.EvalIn` | internal/domain/rule/evaluator.go:203-225 | the two loops decide whether the field is one of the listed values, or, trimmed, one of the stretches between commas |
| `RuleEngine.SplitIsStretches` | internal/domain/rule/evaluator.go:216-223 | splitting at commas yields exactly the maximal comma-free stretches of the text |
| `RuleEngine.ToInt` | internal/domain/rule/evaluator.go:317-332 | the digit loop, wrapping at every step, gives the low 64 bits of the decimal number the digits spell |
| `RuleEngine.Evaluator.RunAll` | internal/domain/rule/evaluator.go:40-132 | over any sequence of evaluations each answer is that of an evaluation on its own |
| `RuleEngine.CompileExpression` | internal/domain/rule/engine.go:50-72 | lexer, parser and validator objects in sequence compute `Compile`, the first failing stage giving the error |
| `RuleEngine.CompiledIsWellFormed` | internal/domain/rule/engine.go:50-72 | an accepted text has a tree of the grammar that passes validation |
| `RuleEngine.EvaluationIsSound` | internal/domain/rule/evaluator.go:40-132 | a validated tree with all its operands and known connectives evaluates without error, in every context, to its boolean denotation |
| `RuleEngine.ValidatedEvaluatesIff` | internal/domain/rule/evaluator.go:40-87 | a validated tree evaluates without error if and only if short-circuit evaluation meets no missing operand or unknown connective, and then to its boolean denotation |
| `RuleEngine.Soundness` | internal/domain/rule/engine.go:20-72 | every accepted expression evaluates without error, in every context, to its boolean denotation |
| `RuleEngine.PrintedFormCompiles` | internal/domain/rule/engine.go:50-72 | printing an accepted expression and compiling it again gives the same tree |
| `RuleMeaning.DigitsSpell` | internal/domain/rule/evaluator.go:300-315 | the text of a number spells it in decimal, without leading zeros |
| `RuleMeaning.NumeralIsDigits` | internal/domain/rule/evaluator.go:300-315 | conversely every numeral is the text of the number it spells |
| `RuleMeaning.AsnEquals` | internal/domain/rule/evaluator.go:199-201 | asn eq d holds if and only if the request comes from the network with the number d spells |
| `RuleMeaning.AsnIn` | internal/domain/rule/evaluator.go:203-225 | asn in a list of numerals holds if and only if the number is that of one of them |
| `RuleMeaning.AsnOrdered` | internal/domain/rule/evaluator.go:270-292 | the four order comparisons order the numbers, for numerals below 2^63 |
| `RuleMeaning.AsnOrderedIff` | internal/domain/rule/evaluator.go:317-332 | asn gt d orders every number rightly if and only if d is below 2^63; beyond, it wraps |
| `RuleMeaning.TextOperators` | internal/domain/rule/evaluator.go:227-244 | prefix, suffix and contains hold if and only if something put after, before or around the value gives the field, contains up to case; exists holds of every text but the empty one |
| `RuleMeaning.NegativeOperators` | internal/domain/rule/evaluator.go:90-132 | every negative operator is the opposite of its positive one on every field and value, and the order operators are consistent |
| `RuleMeaning.PatternIsSafeIff` | internal/domain/rule/validator.go:95-121 | a pattern passes if and only if it is short enough, none of the five dangerous texts occurs anywhere in it, and it compiles |
| `RuleMeaning.AcceptedIffLeaves` | internal/domain/rule/validator.go:20-66 | a tree of the grammar passes validation if and only if each of its comparisons has a known field, a known operator and, for the pattern operators, a safe pattern |
| `ExpressionBuilder.GenerateExpression` | frontend/src/components/rules/ExpressionBuilder.tsx:268-320 | the loop of pushes yields the joined pieces of all conditions, dropping unknown fields and operators together with their connectives |
| `ExpressionBuilder.LexGenerated` | frontend/src/components/rules/ExpressionBuilder.tsx:268-320 | the generated text of every renderable list lexes to the tokens of its conditions and connectives |
| `ExpressionBuilder.ParseGenerated` | internal/domain/rule/parser.go:28-73 | those tokens parse to the tree that groups ANDs before ORs |
| `ExpressionBuilder.FlatNodeMeaning` | internal/domain/rule/evaluator.go:58-87 | that tree denotes: some maximal run of conditions joined by AND holds throughout |
| `ExpressionBuilder.BuildIsValid` | internal/domain/rule/validator.go:20-66 | the tree passes validation if and only if each condition does on its own |
| `ExpressionBuilder.GeneratedTextKeepsItsMeaning` | frontend/src/components/rules/ExpressionBuilder.tsx:268-320 | the generated text compiles if and only if each condition is valid, and then evaluates in every context to the flat list's meaning, AND binding tighter than OR |
| `Decisions.ResolveAllIsEarliestHighest` | internal/pipeline/decision.go:41-73 | resolving offers one by one picks the earliest of the highest-ranked that are not skips |
| `Decisions.RankNeverFalls` | internal/pipeline/decision.go:58-73 | further offers never lower the rank |
| `Scoring.RiskScore.Add` | internal/pipeline/risk_score.go:71-80 | appends the entry, raises one category, keeps the total equal to the sum |
| `Scoring.RiskScore.ApplyCap` | internal/pipeline/risk_score.go:82-91 | cuts one category to its cap, keeps the total equal to the sum |
| `Scoring.RiskScore.ApplyMultiplier` | internal/pipeline/risk_score.go:93-103 | scales one category with truncation, keeps the total equal to the sum |
| `Scoring.RiskScore.ApplyCategory` | internal/pipeline/pipeline.go:193-204 | disable, or multiply then cap, one category, keeps the total equal to the sum |
| `Scoring.RiskScore.ApplyWeights` | internal/pipeline/pipeline.go:190-210 | all four weighted categories in place, trust untouched, keeps the total equal to the sum |
| `Scoring.RiskScore.ClampTotal` | internal/pipeline/risk_score.go:105-112 | brings the total into 0 to 100 and changes nothing else |
| `Scoring.WeighedIsCapped` | internal/pipeline/pipeline.go:190-210 | after weighting every enabled category is at most its cap, and the clamped total is in 0 to 100 |
| `Scoring.WeighedIsProduct` | internal/pipeline/risk_score.go:82-103 | an enabled category becomes the product with its fraction dropped (same side of zero, no larger, less than one away), cut to the cap; a disabled one keeps only what it lost |
| `Scoring.FractionDroppedOnce` | internal/pipeline/risk_score.go:93-103 | that determines the integer |
| `Scoring.WeighedMonotone` | internal/pipeline/risk_score.go:82-103 | with a non-negative multiplier a higher raw score weighs no less |
| `Scoring.HigherScoresAreNoMilder` | internal/pipeline/decision_engine.go:39-50 | with non-negative multipliers raising any raw category never yields a less severe decision |
| `Pipeline.EveryRun` | internal/pipeline/pipeline.go:74-156 | in every run the decision resolves all offers, ranks no lower than the one the request came with, and a response is written, by exactly one writer, if and only if the final action is block, or challenge without a verified cookie |
| `PipelineRuns.RankNeverFallsAlongRun` | internal/pipeline/pipeline.go:74-156 | from any point of any run, handler by handler through both phases, weighting and verdict, to any later one, the rank of the current decision does not fall |
| `Pipeline.FinalDecisionIsEarliestHighest` | internal/pipeline/context.go:163-183 | the final decision is the earliest among the highest-ranked non-skip offers of the run |
| `Pipeline.IpRuleIsTerminal` | internal/pipeline/handlers/ip_access_handler.go:31-86 | with a matching enabled IP rule nothing else is consulted, nothing is scored and nothing else is offered |
| `Pipeline.IpRuleFixesActionIff` | internal/pipeline/handlers/ip_access_handler.go:31-86 | the final action is the rule's own if and only if it is not an allow rule under attack mode |
| `Pipeline.VerifiedIsRefusedIff` | internal/pipeline/handlers/rules_engine_handler.go:129-184 | a verified client without an IP rule is refused if and only if its weighted, clamped score reaches the block threshold |
| `PipelineRuns.LeftAloneIff` | internal/api/v1/handler/waf_handler.go:236-300 | a request is neither answered nor forwarded if and only if its client is verified and either an IP rule challenges it, or allows it under attack mode, or no IP rule applies and its score lies between the thresholds |
| `PipelineRuns.ChallengedClientIsLeftAlone` | internal/api/v1/handler/waf_handler.go:256-300 | such a request: a verified client with an IP rule that challenges it |
| `PipelineRuns.AnsweredIsNotForwarded` | internal/api/v1/handler/waf_handler.go:256-300 | no request is both answered by the pipeline and forwarded |
| `PipelineRuns.HandlerRaisesRank` | internal/pipeline/context.go:163-183 | no handler of either phase, in whatever context, lowers the rank of the current decision |
| `PipelineRuns.Phase1KeepsScores` | internal/pipeline/pipeline.go:80-89 | the hard rules of phase 1 leave all scores alone |
| `Pipeline.ScoringKeepsVerdict` | internal/pipeline/pipeline.go:107-113 | the scoring handlers change scores and nothing a decision depends on |
| `Pipeline.VerifiedScorers` | internal/pipeline/pipeline.go:107-113 | for a verified client phase 2 adds exactly reputation and WAF scores, unless skipped, and the trust reductions |
| `PipelineRuns.RunTotal` | internal/pipeline/pipeline.go:115-131 | in every run the total the verdict is based on is the clamped sum of the weighted categories |
| `PipelineRuns.HigherScoresRankNoLower` | internal/pipeline/decision_engine.go:23-64 | over whole runs, with non-negative multipliers, detectors that score higher never lead to a final action of lower rank |
| `PipelineOutcomes.FiringRuleIsHeard` | internal/pipeline/handlers/rules_engine_handler.go:60-126 | without a cookie and an IP rule, the decision of the first firing rule that allows, blocks or challenges is among the final offers, with its own action and reason, and the final action ranks no lower; a block rule ends in the block page and a challenge rule in a page |
| `PipelineOutcomes.LimitIsHeard` | internal/pipeline/handlers/flood_handler.go:35-146 | likewise the first limit that speaks: penalty, attack, error and basic limits unless the path is exempt, and the rate limit, each with the configured action or its default |
| `PipelineOutcomes.CachedIsHeard` | internal/pipeline/handlers/cache_check_handler.go:29-62 | likewise a cached decision, whatever else was decided |
| `PipelineOutcomes.OrdinaryScored` | internal/pipeline/pipeline.go:105-111 | for such a client phase 2 brings up exactly these scores: reputation up to its cap, bot, WAF and the sum of the protocol checks, each unless a rule skips it, and the two trust reductions where scoring is configured |
| `PipelineOutcomes.QuietOutcome` | internal/pipeline/pipeline.go:74-156 | if no limit, cached decision or rule speaks, the client is challenged under attack mode; otherwise its weighted, clamped total decides: block or challenge from the respective threshold on, no action and no page below both |
| `PipelineContext.Context.AddDecision` | internal/pipeline/context.go:163-183 | skips extend the skipped phases, anything else is resolved; the context takes the model's step |
| `PipelineContext.Context.AddSkipModules` | internal/pipeline/context.go:199-206 | adds the modules to both skip sets |
| `PipelineContext.Context.AddScore` | internal/pipeline/context.go:208-213 | adds the score to its category and to the total |
| `PipelineContext.EvaluateRules` | internal/pipeline/handlers/rules_engine_handler.go:60-126 | the rule loop applies skips and stops at the first deciding rule as in the model |
| `PipelineContext.EvaluateRulesVerified` | internal/pipeline/handlers/rules_engine_handler.go:129-184 | for a verified client only skip rules take effect |
| `PipelineContext.CheckRules` | internal/pipeline/handlers/rules_engine_handler.go:34-184 | the whole handler, guards included, takes the model's step |
| `PipelineContext.ScoreProtocol` | internal/pipeline/handlers/protocol_anomaly_handler.go:96-155 | the sum of the checks' contributions unless hard, verified or skipped |
| `PipelineContext.RunPhase` | internal/pipeline/pipeline.go:80-113 | the handler loop of a phase computes the fold of its handlers |
| `PipelineContext.Weigh` | internal/pipeline/pipeline.go:182-210 | applies weights and clamp to the context's score object as in the model |
| `PipelineContext.ServeBlock` | internal/pipeline/block_handler.go:16-32 | writes the block page exactly when the action is block |
| `PipelineContext.ServeChallenge` | internal/pipeline/handlers/challenge_handler.go:30-56 | writes for block or challenge unless the client is verified |
| `PipelineContext.Execute` | internal/pipeline/pipeline.go:74-156 | on the mutable context the four phases take exactly the modelled run; afterwards the object has one page more exactly when it was refused, its decision resolves everything offered and ranks no lower than before, and its risk total is the clamped sum of its categories |
| `SlidingWindow.FilterRecent` | internal/ratelimit/flood.go:159-168 | compacting in place leaves exactly the recent timestamps, in order, at the front |
| `SlidingWindow.FloodProtector.CheckBasicAccess` | internal/ratelimit/flood.go:170-191 | answer and sharded state are those of the specification, all other addresses untouched |
| `SlidingWindow.FloodProtector.SetChallenge` | internal/ratelimit/flood.go:251-256 | sets the penalty of one address and no timestamps |
| `SlidingWindow.FloodProtector.IsChallenged` | internal/ratelimit/flood.go:258-278 | reports a running penalty; an expired one is forgotten with the address's timestamps |
| `SlidingWindow.FloodProtector.Cleanup` | internal/ratelimit/flood.go:121-155 | every shard keeps just its recent timestamps |
| `SlidingWindow.MemoryLimiter.Allow` | internal/ratelimit/memory.go:55-80 | the naive limiter computes its specification |
| `SlidingWindow.FloodInvariant` | internal/ratelimit/flood.go:121-191 | over any run the stored timestamps of an address are, as far as still recent, its recorded admissions since it was last forgiven |
| `SlidingWindow.FloodIsExact` | internal/ratelimit/flood.go:170-191 | a check is rejected if and only if `limit` recorded admissions of that address since it was last forgiven lie within the window, whatever sweeps happened |
| `SlidingWindow.MemoryIsExact` | internal/ratelimit/memory.go:35-80 | the same for the naive limiter |
| `FloodBounds.LimitPerForgiveness` | internal/ratelimit/flood.go:170-191 | in any run a window holds at most `limit` recorded admissions of an address, and `limit` more for each of its penalties that expires within it |
| `FloodBounds.RejectedIffSpanFull` | internal/ratelimit/flood.go:159-191 | in any run a check is rejected if and only if the limit of recorded admissions since the last forgiven penalty falls on the ticks of the window that ends with it |
| `FloodBounds.FloodAdmitsAtMostLimit` | internal/ratelimit/flood.go:258-278 | no window holds more than `limit` recorded admissions, over the whole run, when each expiry comes a window or more after the admissions before it |
| `FloodBounds.ImpatienceExceedsTheLimit` | internal/ratelimit/flood.go:268-275 | an expiry less than a window after an admission, in a shard with room, lets the run go on so that one window holds `limit + 1` |
| `FloodBounds.ShortPenaltyRenewsTheLimit` | internal/ratelimit/flood.go:268-275 | such a run: two admissions in one window with a limit of one |
| `FloodBounds.HandlerAdmitsAtMostLimit` | internal/pipeline/handlers/flood_handler.go:71-142 | with penalties as long as the window or one tick shorter, however requests and clean-ups come, no window holds more than `limit` recorded admissions of an address |
| `FloodBounds.PenaltyKeepsLimitIff` | internal/pipeline/handlers/flood_handler.go:124-142 | for a positive limit, a penalty keeps every run of visits within the limit if and only if it lasts to the last tick of the window |
| `FloodBounds.ShortPenaltyExceeds` | internal/pipeline/handlers/flood_handler.go:124-142 | with any shorter penalty, one request more than the limit and another when the penalty is over put `limit + 1` admissions into a window |
| `FloodBounds.UnrecordedIff` | internal/ratelimit/flood.go:185-187 | a check is admitted off the record if and only if the limit is positive, its shard is full, and no recorded admission of its address since it was last forgiven is in the window |
| `FloodBounds.FullShardAdmitsUnrecorded` | internal/ratelimit/flood.go:185-187 | for any hash, once a shard has seen as many different addresses as it has room for, a new one is admitted off the record, and so is a stored one whose timestamps are over |
| `FloodBounds.EveryHashFillsUp` | internal/ratelimit/flood.go:76-83 | for any hash, among more addresses than all shards have room for there are some that fill a shard in this way |
| `FloodBounds.FewAddressesAreAllRecorded` | internal/ratelimit/flood.go:185-187 | a shard asked about fewer addresses than its cap records every admission |
| `FloodBounds.FloodAgreesWithMemory` | internal/ratelimit/memory.go:55-80 | without penalty expiries, as long as no shard is asked about as many addresses as its cap, both limiters give the same answers on every run |
| `OldestFirst.FindOldest` | internal/ratelimit/token_bucket.go:94-105 | the scan finds an entry no later than any other |
| `OldestFirst.EvictOldest` | internal/ratelimit/token_bucket.go:88-111 | removes the given number of entries, each no later than every survivor; an empty key is never removed, and as the oldest it blocks all eviction |
| `TokenBucket.RateLimitShard.EvictShard` | internal/ratelimit/token_bucket.go:88-111 | exactly a tenth of the cap goes, oldest access first |
| `TokenBucket.RateLimitShard.AddBucket` | internal/ratelimit/token_bucket.go:121-135 | a new key evicts only at the cap, oldest first, and the shard stays within its cap |
| `TokenBucket.RateLimitShard.Allow` | internal/ratelimit/token_bucket.go:113-158 | refill, consume and store for the one key; others change only by eviction; the cap holds over any run with non-empty keys |
| `TokenBucket.RateLimitShard.Cleanup` | internal/ratelimit/token_bucket.go:75-86 | drops exactly the buckets idle for longer than the time to live |
| `TokenBucket.TokensStayInRange` | internal/ratelimit/token_bucket.go:113-158 | over every run the tokens stay between 0 and the capacity |
| `TokenBucket.AdmissionsSinceCreation` | internal/ratelimit/token_bucket.go:113-158 | since creation at most capacity plus rate times elapsed are admitted |
| `TokenBucket.AdmissionsInSpan` | internal/ratelimit/token_bucket.go:139-158 | any stretch of calls admits at most capacity plus rate times (span plus 0.01 s) |
| `TokenBucket.AdmissionsInLife` | internal/ratelimit/token_bucket.go:113-158 | the same for any stretch within a bucket's life |
| `TokenBucket.IdleCallerIsAdmitted` | internal/ratelimit/token_bucket.go:139-158 | with capacity at least 1 a caller idle for 0.01 s and 1/rate is admitted |
| `TokenBucket.TokensAreSpendable` | internal/ratelimit/token_bucket.go:139-158 | a bucket that holds a token for every call of a run admits them all, whenever they come |
| `TokenBucket.IdleCallerMayBurst` | internal/ratelimit/token_bucket.go:139-158 | a caller idle for 0.01 s and capacity/rate may make as many calls in a row as the capacity |
| `TokenBucket.FreshBurstIsExact` | internal/ratelimit/token_bucket.go:113-158 | of any number of calls at the instant a bucket is made exactly the capacity is admitted |
| `TokenBucket.NewLimitsTakeEffect` | internal/ratelimit/token_bucket.go:139-151 | a call under new limits leaves the tokens within the new capacity |
| `IpTrie.Trie.Insert` | internal/service/ip_trie.go:19-43 | panics if and only if the mask is longer than the shortened address; otherwise the entries become the old ones with this prefix set to the score; the tree stays well linked either way |
| `IpTrie.Trie.LookupBits` | internal/service/ip_trie.go:57-79 | the walk returns the score of the longest non-empty stored prefix of the address, in the bit order `IpBits.PrefixIffMask` ties to the number |
| `IpTrie.Trie.Lookup` | internal/service/ip_trie.go:45-55 | the same for addresses, IPv4 in either notation |
| `IpTrie.MappedIsShortened` | internal/service/ip_trie.go:19-26 | the two notations of an IPv4 address come to the same four bytes and no other address is shortened |
| `IpBits.PrefixIffMask` | internal/service/ip_trie.go:28-36 | two addresses share the first n bits of their paths if and only if their numbers, the bytes read in base 256, agree after shifting out all but n bits |
| `IpBits.AgreeAboveIffQuotients` | internal/service/ip_trie.go:28-36 | shifting out k bits is dividing by 2^k |
| `IpTrie.Trie.Size` | internal/service/ip_trie.go:81-96 | counts the distinct inserted prefixes |
| `IpTrie.LinearScanIsLongest` | internal/service/ip_trie.go:57-79 | the reference scan finds a longest matching prefix, the latest insert of it, and nothing exactly when none matches |
| `IpTrie.LongestMatchIsLinearScan` | internal/service/ip_trie.go:19-79 | after any sequence of inserts the trie's answer is the reference scan's |
| `IpTrie.DefaultRouteIsMissed` | internal/service/ip_trie.go:57-79 | the answer is the full longest match if and only if there is no /0 entry or a longer prefix matches |
| `IpReputation.ReputationIndex.Reload` | internal/service/ip_reputation_service.go:40-86 | panics, leaving the old index, if and only if some block overruns; otherwise map and trie hold the latest score of every address and prefix |
| `IpReputation.ReputationIndex.LookupIP` | internal/service/ip_reputation_service.go:88-108 | the exact address first, else the score of the block that beats every other covering the address, by length and then by position, of whichever family |
| `IpReputation.BestBeatsAll` | internal/service/ip_trie.go:57-79 | the reference scan finds the covering block that is longer, or as long and later, than every other, and nothing when none covers |
| `IpReputation.CoversIffMask` | internal/service/ip_trie.go:62-70 | within a family a block covers an address if and only if its mask is not empty and the two agree as numbers under it |
| `IpReputation.TenIsCovered` | internal/service/ip_trie.go:28-36 | 10.0.0.0/9 scores 10.1.2.3 |
| `IpReputation.BestIsLinearScan` | internal/service/ip_trie.go:19-79 | it is what scanning the trie inserts finds |
| `IpReputation.FamiliesAgreeIff` | internal/service/ip_trie.go:19-55 | the entry found is the best of the client's own family if and only if every covering block of the other family is beaten by one of its own |
| `IpReputation.Ipv6BlockScoresIpv4Client` | internal/service/ip_trie.go:19-55 | 2a06:f680::/29 alone gives 42.6.246.128 its score |
| `IpReputation.MappedBlockPanics` | internal/service/ip_trie.go:28-33 | ::ffff:10.0.0.0/104 overruns |
| `IpAccess.OverlapIffCommon` | internal/service/ip_access_service.go:275-277 | the two base-address tests hold if and only if the blocks share an address |
| `IpAccess.IPAccessService.CheckOverlap` | internal/service/ip_access_service.go:239-281 | reports the first CIDR rule of the application, by id and except the excluded one, that overlaps; a single address is checked as what its text with "/32" or "/128" means |
| `IpAccess.IPAccessService.CreateRule` | internal/service/ip_access_service.go:50-68 | the checks in order with their errors; on success a rule under a new id; CIDR rules stay disjoint |
| `IpAccess.IPAccessService.UpdateRule` | internal/service/ip_access_service.go:71-97 | the checks in order with their errors; on success just the given fields change; CIDR rules stay disjoint |
| `IpAccess.IPAccessService.DeleteRule` | internal/service/ip_access_service.go:100-110 | removes the application's own rule and no other |
| `IpAccess.IPAccessService.LoadSnapshot` | internal/service/ip_access_service.go:162-191 | each application gets its enabled, parseable rules in order of id |
| `IpAccess.IPAccessService.FindMatch` | internal/service/ip_access_service.go:132-142 | the scan returns the first match |
| `IpAccess.IPAccessService.CheckIP` | internal/service/ip_access_service.go:117-160 | the application's rules first, then the default ones, an error for what is no address |
| `IpAccess.OpKeepsInv` | internal/service/ip_access_service.go:50-110 | every create, update and delete keeps an application's CIDR rules disjoint |
| `IpAccess.RunsStayDisjoint` | internal/service/ip_access_service.go:50-110 | over any run no address lies in two CIDR rules of one application |
| `IpAccess.AtMostOneNetworkMatches` | internal/service/ip_access_service.go:132-142 | at most one CIDR rule of an application matches a client address |
| `IpAccess.MatchIsOrderIndependent` | internal/service/ip_access_service.go:132-142 | over any run, two listings of the same CIDR rules give the same match |
| `IpAccess.LookupIsLowest` | internal/service/ip_access_service.go:117-191 | a fresh snapshot answers with the application's matching rule of lowest id, else the default's |
| `IpAccess.LookupAnswers` | internal/service/ip_access_service.go:117-191 | a client is answered by the lowest-numbered enabled rule of its application whose block contains its address or, for a range that is no block, whose address it is; by the lowest such default rule only if there is none |
| `IpAccess.CreationSucceedsIff` | internal/service/ip_access_service.go:50-69 | a rule is created if and only if its application is named, range and action are valid, and the block it is checked as has no address in common with a CIDR rule of the application |
| `IpAccess.CreationTakesEffect` | internal/service/ip_access_service.go:50-69 | a created rule answers exactly the clients of its application it covers, if enabled and no older rule does; all other answers stay |
| `IpAccess.UpdateTakesEffect` | internal/service/ip_access_service.go:71-98 | an updated rule concerns the clients its new range covers, if enabled, with the new action, each as before where the request is silent; other rules stay |
| `IpAccess.DeletionTakesEffect` | internal/service/ip_access_service.go:100-111 | a deleted rule concerns no one, and whoever it did not answer is answered as before |
| `IpAccess.SingleAddressNeverBlocks` | internal/service/ip_access_service.go:269-272 | in any store, a single-address rule has no say in whether a range is admitted |
| `IpAccess.SingleInsideIsRefusedIff` | internal/service/ip_access_service.go:249-277 | a single address inside a CIDR rule of the application is refused if and only if it is not an IPv4 address in IPv6 notation, or some rule overlaps ::/32 |
| `IpAccess.MappedSingleIsAdmitted` | internal/service/ip_access_service.go:256-261 | with 10.0.0.0/8 in store, ::ffff:10.0.0.5 is admitted |
| `IpAccess.OrderDecidesIff` | internal/service/ip_access_service.go:132-142 | for any listing, the order decides the match if and only if two matching rules have different ids |
| `ChallengeStore.Store.Create` | internal/challenge/store.go:60-78 | a new challenge with full lifetime and no attempts; room is made only at the cap |
| `ChallengeStore.Store.EvictLocked` | internal/challenge/store.go:82-114 | expired entries first; only if that is not enough a tenth more, earliest expiry first |
| `ChallengeStore.EvictionIsOldestFirst` | internal/challenge/store.go:82-114 | whatever is removed expires no later than every survivor, and there is room afterwards |
| `ChallengeStore.Store.Get` | internal/challenge/store.go:116-128 | the challenge unless missing or expired |
| `ChallengeStore.Store.IncrementAttempts` | internal/challenge/store.go:130-140 | one more attempt on just this challenge, -1 if missing |
| `ChallengeStore.Store.IsSolveRateLimited` | internal/challenge/store.go:157-173 | limited when the open window is full; a finished window is dropped |
| `ChallengeStore.Store.RecordSolve` | internal/challenge/store.go:176-186 | counts in the open window or starts a new one |
| `ChallengeStore.Store.Cleanup` | internal/challenge/store.go:204-231 | keeps the unexpired challenges and the open windows |
| `ChallengeStore.Store.Verify` | internal/api/v1/router.go:820-904 | the endpoint's early returns and store updates as one function of store and request, when nothing comes between |
| `ChallengeStore.Store.Conclude` | internal/api/v1/router.go:873-904 | the part after the checks, also for a challenge that has gone meanwhile, when a wrong answer counts nowhere and a right one is a solve; what it means over runs is stated by `ChallengeRuns.WrongAnswerCounts` and `ChallengeRuns.VerifyOutcomeIff` |
| `ChallengeRuns.StepKeepsChallenges` | internal/api/v1/router.go:820-904 | every creation and clean-up, and every step of a verify request, keeps attempts, failures, expiry and solves consistent |
| `ChallengeRuns.StepKeepsWindows` | internal/challenge/store.go:157-186 | every step keeps each window within the limit and windows of one address apart |
| `ChallengeRuns.ChallengesAreSafe` | internal/api/v1/router.go:820-904 | over any run with fresh ids, with creations and clean-ups between the steps of a verify request, each challenge is solved at most once, looked up before expiry, not after too many failures; stored attempts stay below the limit and the store within its size |
| `ChallengeRuns.MissingForAReason` | internal/challenge/store.go:60-155 | in any run an issued challenge is missing only if it was solved, has expired, has received all the wrong answers it allows, or was evicted from a full store |
| `ChallengeRuns.WrongAnswerCounts` | internal/api/v1/router.go:873-885 | in any run a wrong answer short of the allowed number keeps the challenge open with just its count raised and reports the tries left; the last one closes it |
| `ChallengeRuns.VerifyOutcomeIff` | internal/api/v1/router.go:820-904 | in any state of a run: expired if and only if the challenge is missing or past its time, refused if and only if the address has used up its open window, solved if and only if neither is so, the type is known and the answer right |
| `ChallengeRuns.SolvesPerSpan` | internal/challenge/store.go:157-186 | any span of the length of the solve window holds at most twice the limit of solves per address |
| `Trajectory.StraightIsShortest` | internal/challenge/trajectory.go:185-201 | no path is shorter than the straight line between its ends |
| `Trajectory.StraightnessInRange` | internal/challenge/trajectory.go:180-207 | straightness is in (0, 1], and 1 exactly for paths without detour and closed ones |
| `Trajectory.CalcStraightness` | internal/challenge/trajectory.go:180-207 | the accumulating loop computes it, in (0, 1] for every trajectory |
| `Trajectory.AnalyzeTrajectory` | internal/challenge/trajectory.go:53-105 | the score is 1 less the penalties, floored at 0, hence in [0, 1] |
| `Trajectory.AnalyzeSignals` | internal/challenge/trajectory.go:107-126 | the score is 1 less the penalties, floored at 0, hence in [0, 1] |
| `Trajectory.ComputeTrustLevel` | internal/challenge/trajectory.go:128-141 | the level is in 0 to 3 |
| `Trajectory.LevelExceedsIff` | internal/challenge/trajectory.go:128-141 | for ordered bounds the level exceeds k if and only if 0.7 of the trajectory score plus 0.3 of the signals score reaches bound k |
| `Trajectory.TrustLevelMonotone` | internal/challenge/trajectory.go:128-141 | the level is monotone in both scores for any bounds |
| `Trajectory.LivelierIsTrustedNoLess` | internal/challenge/trajectory.go:53-141 | with as many points, less mechanical measures and more activity never earn a lower level |
| `TrustedHistory.RedisClient.IncrWithCooldown` | internal/cache/redis_client.go:164-195 | the script as one step: nothing while the cooldown key lives, else mark, count, and give a new counter its lifetime |
| `TrustedHistory.Scorer.Handle` | internal/pipeline/handlers/trusted_history_scorer.go:44-93 | the reduction exactly when the live counter reaches the threshold and nothing forbids it |
| `TrustedHistory.Scorer.RecordCleanRequest` | internal/pipeline/handlers/trusted_history_scorer.go:97-104 | one counting step for the address, nothing when the store is down |
| `TrustedHistory.Scorer.ResetHistory` | internal/pipeline/handlers/trusted_history_scorer.go:108-117 | removes counter and cooldown of the address, nothing when the store is down |
| `TrustedHistory.KeysMeet` | internal/pipeline/handlers/trusted_history_scorer.go:14-15 | keys of different addresses differ, except that the counter of "cooldown:" + x is the cooldown of x |
| `TrustedHistory.ReadingIsEarned` | internal/cache/redis_client.go:164-195 | in any run, a reading of k of an address that is no such alias stands for k of its own clean requests, none reset since, all within the lifetime; it took k - 1 cooldowns and is at most TTL/cooldown, but for one each for every reset under the alias in between |
| `TrustedHistory.ReductionNeedsHistory` | internal/pipeline/handlers/trusted_history_scorer.go:64-81 | a reduction needs threshold - 1 cooldowns of history without a reset, less one for each reset under the alias, and a threshold that fits into the lifetime |
| `TrustedHistory.ReadingIsTally` | internal/cache/redis_client.go:164-195 | whatever other addresses do, short of bearing the alias, the counter reads what the tally of the address's own requests gives: one per cooldown, anew after a day, nothing after a reset |
| `TrustedHistory.SteadyClientIsTrusted` | internal/pipeline/handlers/trusted_history_scorer.go:44-104 | an address whose clean requests keep the cooldown, none of them blocked, has its score reduced if and only if there are threshold of them and the first is less than a day old |
| `TrustedHistory.AliasRenews` | internal/pipeline/handlers/trusted_history_scorer.go:97-117 | after any run, a reset under the alias and a clean request raise a live reading by one without time passing |
| `TrustedHistory.AliasRenewsNine` | internal/pipeline/handlers/trusted_history_scorer.go:97-117 | such a run: the counter of "9" reads 2 at time 0 |
| `TrustedHistory.AliasReadsAnother` | internal/pipeline/handlers/trusted_history_scorer.go:97-117 | the counter of an alias reads 1 after one clean request of the address it stands for |
| `AcmeQueue.AcmeService.Enqueue` | internal/acme/service.go:88-105 | appends unless the domain waits already, and starts a worker exactly when none was busy |
| `AcmeQueue.SubmissionIsTaken` | internal/acme/service.go:88-105 | after any submission a job for its domain is waiting; it is accepted, last in the queue, with a worker busy, if and only if no waiting job had that domain |
| `AcmeQueue.EverySubmissionIsAccepted` | internal/acme/service.go:88-105 | in every run each submission whose domain was not waiting is in the history of accepted jobs from then on, in its place |
| `AcmeQueue.AcmeService.TakeJob` | internal/acme/service.go:109-117 | takes the head, or signs off on an empty queue |
| `AcmeQueue.StepKeepsInv` | internal/acme/service.go:88-137 | every enabled step of caller or worker keeps the queue's invariant |
| `AcmeQueue.QueueIsSafe` | internal/acme/service.go:88-137 | under every interleaving: at most one worker, alive exactly while busy is set, always one for a waiting job; distinct waiting domains; jobs finish in order of acceptance and each has fired its callback once with its own outcome |
| `AcmeQueue.WorkerMakesProgress` | internal/acme/service.go:107-137 | every worker step brings the end one step nearer |
| `AcmeQueue.QueueDrains` | internal/acme/service.go:107-137 | from every reachable state the worker can always go on while work remains, and after that many steps every accepted job has finished and no worker is left |
| `AcmeQueue.SubmissionIsFinished` | internal/acme/service.go:88-137 | once no worker is left each such submission has finished and its callback has been called with its domain and outcome |
| `AcmeQueue.OutcomeIsReported` | internal/acme/service.go:119-134 | what issuing came to is what is reported of the job |
| `StreamPorts.Validate` | internal/domain/app/app.go:246-303 | the loops decide exactly the stated validity, port ranges included |
| `StreamPorts.AppService.FindAvailable` | internal/service/app_service.go:305-353 | the lowest port of the range no other stream application holds; failure only when all are held |
| `StreamPorts.AppService.CheckConflict` | internal/service/app_service.go:355-389 | the wish is granted unless another stream application holds the port |
| `StreamPorts.AppService.ResolvePort` | internal/service/app_service.go:273-303 | automatic choice for 0, conflict check otherwise |
| `StreamPorts.AppService.Place` | internal/service/app_service.go:95-102 | both ports of a stream, listen first, or the error of the first that fails |
| `StreamPorts.AppService.CreateApp` | internal/service/app_service.go:90-127 | validate, place, store; ports stay separate and in range |
| `StreamPorts.AppService.UpdateApp` | internal/service/app_service.go:129-168 | the protected demo domain, validate, place, store; ports stay separate and in range |
| `StreamPorts.AppService.DeleteApp` | internal/service/app_service.go:170-195 | removes the one application unless it is protected or missing |
| `StreamPorts.RunsKeepPortsSeparate` | internal/service/app_service.go:90-195 | over any run, stream applications have pairwise distinct in-range listen ports and pairwise distinct in-range backend ports |
| `StreamPorts.EnoughPorts` | internal/service/app_service.go:305-353 | an automatic choice succeeds as long as there are fewer other applications than ports |
| `StreamPorts.WrittenIff` | internal/service/app_service.go:90-168 | an application is written if and only if it is valid, each port of a stream is free, or any in range if left open, and the database takes it; a failure changes nothing |
| `StreamPorts.WrittenIsStored` | internal/service/app_service.go:90-168 | it is stored with the ports it asked for and, where it left one open, the lowest in range no other stream holds; everything else stays |
| `StreamPorts.RewritingChangesNothing` | internal/service/app_service.go:129-168 | storing a valid application again as it is stored changes nothing and depends on the database alone: its own ports are not in its way |

## Left out

- SlidingWindow: the attack and error counters of the flood limiter; they repeat the window without its key cap.
- SlidingWindow: the FNV hash that picks a shard is an arbitrary function, so every result holds for any hash.
- FloodBounds.FloodAgreesWithMemory: without penalty expiries, which the naive limiter does not have, and with fewer addresses per shard than its cap, from where on the two store different keys.
- TokenBucket: one shard is modelled; the 256 shards share nothing, and `RateLimitService` replaces the whole limiter every 30 s, so bounds are per limiter lifetime.
- TokenBucket: rounding of floating point, and the saturation of very long durations.
- RuleEngine: regular expressions, lower and upper case and trimming are arbitrary functions; the denotation is relative to them.
- RuleLexer: characters are bytes; classification of letters follows Latin-1 as the conversion of single bytes does.
- ExpressionBuilder.GeneratedTextKeepsItsMeaning: for lists whose conditions all render, with values that read back; other lists lose conditions or connectives in the source itself.
- IpReputation: ASN entries are a plain map beside the trie.
- IpAccess: the parser of address texts is an arbitrary function with well-formed results; the stored snapshot may lag behind the rules by up to the reload interval.
- Pipeline: traces, evidence and the extra map; decision metadata that no caller sets; `ExecuteWebSocketChecks`.
- Pipeline: the keyword and header rules of the phase 2 detectors; each contributes an arbitrary integer.
- Pipeline: the effects of a single handler have no rows of their own; what they add up to is stated for whole phases and runs.
- Pipeline: handler errors other than the response marker end a request without a decision and are not modelled.
- ChallengeStore: verify requests are served one at a time; the race of two simultaneous answers to one challenge is outside the model, as are cookies, their signatures and challenge generation. Creations and clean-ups may come between the steps of a request.
- Trajectory.AnalyzeTrajectory: variances, jitter, direction changes and pause detection are inputs; only straightness has a geometric law.
- TrustedHistory: the counting script is atomic and a reset's two deletions are one step; a key is taken to be gone at its very expiry millisecond.
- AcmeQueue: what issuing a certificate does (the wildcard branch, acme.sh, files); it is a step with an arbitrary outcome.
- StreamPorts.Validate: checks that concern neither upstreams nor ports are one flag; health-check defaults are not filled in; the error of a failing check is not distinguished.
- StreamPorts: starting proxies, nginx configuration, certificates and health checks after a change; uniqueness of domains is part of the database's answer.
- The dashboard apart from `generateExpression`, logging, repositories, DNS, GeoIP, Coraza and the TCP/UDP proxies.
- `frontend/src/lib/ast-converter.ts`: it flattens groups, so it does not invert the compiler and no round trip is claimed.
