# cerberus-db-mcp, modelled and proved

cerberus-db-mcp is a server that lets an agent read databases and Redis through a gate. This project
models the parts of it that decide something from text or data they do not control, and proves what
those decisions keep.

## The parts

**The SQL gate** (`Gate*.dfy`). A lexer for three dialects, a one-pass analysis of the tokens, and a
ruleset that is validated, merged with an overlay and compiled into indexes. `GateLexer`, `GateRules`
and `GateAnalysis` say what is computed; `GateLexerLoop`, `GateRulesLoops` and `GateLoop` are the
objects and loops that compute it; the other modules prove properties of lexing, of verdicts, of two
rulesets side by side, and of overlays. `GateDialects`, `GatePlain`, `GateMerging`, `GateDiff` and
`GateValidity` say what lexing, deciding, merging, reporting and validating come to once more, in the
letters of a statement and the rules as written, with nothing of the definitions in between. The
ruleset is any data its validator accepts. `GateExamples` holds the rulesets and statements that show
what can go wrong.

**The authorization flow** (`Auth*.dfy`, `Base64.dfy`). No session is stored: what the protocol needs travels in
values sealed by the server and presented by a client that may replay, swap or relabel them. The flow
is a state machine over its steps. Sealing is idealised: bytes open for a purpose only if this server
sealed them for that purpose. The letters that spell those bytes are read as Go's decoder reads them,
which is not strict: section 5 of RFC 4648 without padding, line breaks passed over and the last
letter's spare bits ignored. PKCE is that of section 4.6 of RFC 7636; the token endpoint's
grants are those of sections 4.1.3 and 6 of RFC 6749. `AuthLaws` says of each step when it succeeds and
what is handed out, with every lifetime and every condition written out. Google is the environment. It is held to two
things only: it honours no grant after withdrawing it, and a refresh token belongs to one grant.

**The Redis gate** (`Redis*.dfy`). The option scanners of the allowed commands, as loops and as one
grammar over option tables; the gate around them; what an accepted command can make Redis walk; and,
in `RedisServed` and `RedisRefusals`, every command served with the arguments it may have, and why any
other is refused.

**Bounded replies** (`Reply*.dfy`, `Utf8*.dfy`). Cutting a Redis reply to an element cap and a byte
budget, and writing it for a client as text where it is text.

**Missing names** (`EditDistance.dfy`, `ClosestNames.dfy`, `Missing*.dfy`). Which names are suggested
for one the engine does not have, and what of the caller's statement is reported as missing.

**The token cache** (`Token*.dfy`) and **budgeted answers** (`RowBudget.dfy`, `SchemaSearch.dfy`).

A Dafny `string` stands for Go's bytes, one char a byte, except in `ClosestNames` and `EditDistance`,
where a char is a rune. Library functions over text (lower-casing, splitting into fields, trimming,
hashing) are parameters of function type: nothing proved depends on what they do to a character.
Integers are unbounded except where the code's width decides something: the Redis gate's int64
arithmetic is written with its wrap-around, and proved never to wrap.

## Where the code differs from what is said of it

* The validator's comment says a safe name that disables a keyword has to be argued for on the
  keyword's rule. It remembers a name's engines in the order of its allowances, and an allowance for
  some engines after one for all of them narrows what it remembers (internal/gate/ruleset.go:320-329).
  The check also looks at bare names only, while a dotted name can be safe
  (internal/gate/gate.go:422-424). `GateExamples.OutOfOrderAllows` and `GateExamples.DottedNameAllows`
  are valid rulesets with statements that pass by each; `GateExemptions.UnarguedExactly` says, of any
  valid ruleset, exactly when some call passes so.
* Removing a rule reads like tightening. Read keywords also mark where a second statement begins, so
  removing a read rule can loosen (internal/gate/gate.go:379-388).
  `GateExamples.RemovingAReadRuleLoosens` is an overlay and a statement;
  `GateRemoval.RemovalLoosensExactly` says, of every overlay that only removes read rules, exactly for
  which statements it loosens.
* A bounded reply keeps its first label (internal/redisdb/reply.go:51-55). A capped array can hide a
  string the budget cuts later, and such a string is not mended when it is written:
  `ReplyEncoding.HiddenCutIsNotMended` is such a reply, `ReplyCuts.LabelIsTruthful` says which label a
  reply gets, and `ReplyEncoding.TextStaysText` exactly which replies of text go out with base64.
* A sealed value reads like one string. The decoder is lenient, as internal/auth/sealing_test.go:22-26
  remarks, so other strings open as well: `AuthSealing.RespeltOpens` and `Base64.IgnoredBits` give
  some, `AuthSealing.OpensExactlyWhatWasSealed` all of them. Nothing in the flow tells two spellings
  apart, and what is promised of runs is promised of them too.

## Model

| member | source | states |
|---|---|---|
| GateLexerTheorems.TokenizeHomomorphism | internal/gate/lexer.go:45-143 | once `a` tokenizes, `a`, a newline and `b` tokenize to `a`'s tokens followed by `b`'s moved past them, and fail exactly as `b` fails, in every dialect |
| GateLexerTheorems.NextStops | internal/gate/lexer.go:69-143 | a piece that ends before a newline is the same piece whatever follows the newline |
| GateLexerPartition.TokenizePartitions | internal/gate/lexer.go:69-383 | a source that tokenizes is the concatenation of pieces, each a token, a blank, a comment or an executable-comment marker as its dialect describes them, the blank MySQL wants after two dashes included; the markers balance and the tokens are those pieces, where they stand |
| GateLexerPartition.QuoteRoundTrip | internal/gate/lexer.go:220-248 | any text, quoted by a dialect's own escapes with any of its prefixes, lexes to one token with exactly that text |
| GateLexerPartition.DollarRoundTrip | internal/gate/lexer.go:255-284 | a dollar-quoted text is read back exactly when its tag does not occur before its end, and only then |
| GateLexerPartition.EscapeUndone | internal/gate/lexer.go:220-248 | reading undoes escaping for every closing character, with and without backslash escapes |
| GateDialects.MySQLString | internal/gate/lexer.go:220-248 | on MySQL any text between single or double quotes, with the quote and the backslash doubled or escaped, is one string token with that text, whatever follows |
| GateDialects.StandardString | internal/gate/lexer.go:220-248 | on PostgreSQL and SQL Server the same between single quotes with the quote doubled, and a backslash standing for itself |
| GateDialects.DoubleQuotedName | internal/gate/lexer.go:94-104 | on those two, double quotes delimit a name |
| GateDialects.BacktickedName | internal/gate/lexer.go:94-124 | on MySQL backticks delimit a name |
| GateDialects.BracketedName | internal/gate/lexer.go:94-124 | on SQL Server brackets delimit a name, the closing one doubled; on the others `[` is a mark |
| GateDialects.RefusedCharacter | internal/gate/lexer.go:69-143 | a backslash, a control character that is no blank and, but on MySQL, a backtick refuse the statement wherever they begin a piece |
| GateDialects.Unclosed | internal/gate/lexer.go:220-253 | a literal or delimited name that is not closed refuses the statement, as a string or as an identifier |
| GateDialects.NationalString | internal/gate/lexer.go:341-383 | N before a quote makes one string token on MySQL, with backslashes, and on SQL Server, without |
| GateDialects.BinaryString | internal/gate/lexer.go:341-383 | X or B before a quote makes one string token on MySQL and PostgreSQL, with no backslashes |
| GateDialects.EscapeString | internal/gate/lexer.go:341-383 | E before a quote makes one string token with backslashes on PostgreSQL |
| GateDialects.UnicodeLiteral | internal/gate/lexer.go:341-383 | U& before a quote makes one string or name token on PostgreSQL, with no backslashes |
| GateDialects.WordReads | internal/gate/lexer.go:341-383 | a run of word characters, on SQL Server with number signs among them, that introduces nothing on its engine is one word token |
| GateDialects.DashComment | internal/gate/lexer.go:159-181 | `--` begins a comment to the end of the line, on MySQL only before a blank or a control character |
| GateDialects.MySQLDash | internal/gate/lexer.go:159-168 | on MySQL a `-` before `-` and anything else is a mark, and the rest is read on its own |
| GateDialects.HashComment | internal/gate/lexer.go:159-181 | on MySQL `#` begins a comment to the end of the line |
| GateDialects.PostgreSQLMark | internal/gate/engine.go:123-149 | on PostgreSQL `#` and `@` are marks |
| GateDialects.VariableReads | internal/gate/lexer.go:286-297 | on MySQL and SQL Server at-signs and a name are one token |
| GateDialects.Comment | internal/gate/lexer.go:183-218 | a block comment ends at the first star and slash, where none begins inside it on the engines that nest them |
| GateDialects.NestedComment | internal/gate/lexer.go:183-218 | on PostgreSQL and SQL Server comments inside comments, to any depth, are passed over |
| GateDialects.UnendedComment | internal/gate/lexer.go:183-218 | a comment that never ends refuses the statement |
| GateDialects.ExecutableComment | internal/gate/lexer.go:183-218 | on MySQL what stands between `/*!`, a version number and `*/` is tokenized as code |
| GateDialects.Parameter | internal/gate/lexer.go:255-284 | on PostgreSQL a dollar sign and figures are one token |
| GateDialects.LoneDollar | internal/gate/lexer.go:255-284 | on PostgreSQL a dollar sign that begins neither a parameter nor a tag is a mark |
| GateDialects.DollarString | internal/gate/lexer.go:255-284 | on PostgreSQL everything between two equal tags is one string token, until the tag occurs again |
| GateDialects.NumberReads | internal/gate/lexer.go:299-339 | digits, a fraction and an exponent that end where they must are one token |
| GateDialects.HexNumberReads | internal/gate/lexer.go:299-339 | so are a zero, an x and hexadecimal digits |
| GateDialects.MarkReads | internal/gate/lexer.go:411-417 | each of the marks every engine has is a token of its own, a dash or a slash where it begins no comment |
| GateDialects.BlankSkipped | internal/gate/lexer.go:385-387 | each of the six blanks is passed over |
| GateLexerLoop.TokenizeStatement | internal/gate/lexer.go:45-67 | the lexer object returns the specified tokens or error; the laws of `GateDialects` say, engine by engine and in the letters of a statement, which those are |
| GateLexerLoop.Lexer.Run | internal/gate/lexer.go:69-143 | the loop takes one piece at a time until the source or an error ends it |
| GateLexerLoop.Lexer.Step | internal/gate/lexer.go:69-143 | one turn takes the piece the rest of the source begins with and leaves the index after it |
| GateLexerLoop.Lexer.BlockComment | internal/gate/lexer.go:183-216 | a comment or an executable-comment opening is passed, nested or not as the dialect has it |
| GateLexerLoop.Lexer.NestedComment | internal/gate/lexer.go:183-216 | the depth counter finds the end the recursive reading finds |
| GateLexerLoop.Lexer.Quoted | internal/gate/lexer.go:220-248 | the builder holds the text with its escapes undone |
| GateLexerLoop.Lexer.Dollar | internal/gate/lexer.go:255-284 | a dollar quote, a parameter or a lone dollar is told apart |
| GateLexerLoop.Lexer.ReadVariable | internal/gate/lexer.go:286-297 | a variable's sigils and name are one token |
| GateLexerLoop.Lexer.ReadNumber | internal/gate/lexer.go:299-339 | a number's fraction and exponent are taken only as far as they are well formed |
| GateLexerLoop.Lexer.ReadWord | internal/gate/lexer.go:341-383 | a word, or the literal its prefix opens, becomes the token |
| GateRulesLoops.Validate | internal/gate/ruleset.go:246-356 | accepts exactly the valid rulesets, which `GateValidity.ValidIsWellformed` describes clause by clause |
| GateValidity.ValidIsWellformed | internal/gate/ruleset.go:246-386 | what a valid ruleset is, of the rules as written: version 1, a bound of 4096 or more, identifiers all different, patterns in lower case with single spaces, no word both leading and forbidden on one engine, no function both forbidden and safe |
| GateRulesLoops.CheckCollisions | internal/gate/ruleset.go:340-348 | accepts exactly when each forbidden keyword that is also safe where its rule applies states why |
| GateRulesLoops.CheckAllowances | internal/gate/ruleset.go:313-330 | accepts exactly the well-formed allowances, with the engines each safe name was last left with |
| GateRulesLoops.Merge | internal/gate/ruleset.go:185-241 | the merged and validated ruleset, or nothing; `GateMerging.MergeIsPlain` says which overlays merge, and to what |
| GateMerging.MergeIsPlain | internal/gate/ruleset.go:185-241 | an overlay merges if and only if its version is 1, each rule and safe name it removes is there and given once, and the result is valid; and the result is, list by list and in order, what it spares of the base and then all it adds, under its bound if it gives one |
| GateMerging.MergedHolds | internal/gate/ruleset.go:199-236 | each merged list holds exactly the rules of the base it does not remove and all its own |
| GateMerging.MergedSafe | internal/gate/ruleset.go:212-235 | a name is safe on an engine afterwards if and only if it was and is not taken back, or the overlay says so |
| GateMerging.ForbiddenFunctionsRefuse | internal/gate/ruleset.go:233-234 | under the compiled merged rules every statement that names a function the overlay forbids, or one the base forbids and the overlay spares, bare or dotted, is denied |
| GateMerging.ForbiddenStatementsRefuse | internal/gate/ruleset.go:232-232 | and every statement in which such a phrase reads out other than as a safe call |
| GateMerging.OnlyReadersLead | internal/gate/ruleset.go:231-231 | a statement that is not denied begins with the keyword of a read rule spared or added |
| GateMerging.SafeIsUnquestioned | internal/gate/ruleset.go:212-235 | a call of a function the overlay adds as safe, or spares, is never in question |
| GateMerging.BoundRefuses | internal/gate/ruleset.go:227-229 | a longer statement than the bound in force is denied |
| GateRulesLoops.RemoveRules | internal/gate/ruleset.go:200-210 | each named rule is gone from all three lists, or one of them was not there to remove |
| GateRulesLoops.Compile | internal/gate/ruleset.go:411-462 | the indexes hold, for each engine, exactly the rules that apply there, the last one for a keyword winning, and each first word's phrases longest first |
| GateRulesLoops.ValidCompiles | internal/gate/ruleset.go:358-374 | a validated ruleset has a first word to index for every forbidden phrase |
| GatePhrases.IndexAgreesWithScan | internal/gate/gate.go:428-448 | the phrase the index finds is the longest that a scan of all rules finds, for every token sequence and place |
| GatePhrases.LongestIs | internal/gate/ruleset.go:436-440 | what the scan finds fits and nothing that fits is longer; it finds nothing only when nothing fits |
| GateLoop.RunAnalysis | internal/gate/gate.go:269-420 | the one walk computes the specified decision, which `GatePlain.VerdictIsPlain` and `GatePlain.SecondStarts` restate from the tokens alone |
| GateLoop.StepWord | internal/gate/gate.go:326-392 | one token's checks change the depth, the pending flags and the obstacles as specified |
| GateLoop.ConcludeWalk | internal/gate/gate.go:395-420 | the first terminal obstacle denies; otherwise the escalatable ones are split by the grants |
| GateLoop.FindPhrase | internal/gate/gate.go:428-448 | the first phrase that fits in the index's order |
| GateLoop.JoinName | internal/gate/gate.go:502-512 | the dotted name that ends at a token, at most four parts of it |
| GateLoop.Gate.Validate | internal/gate/gate.go:232-258 | the whole decision, with or without a ruleset loaded: no ruleset, unknown engine, length bound, lexing, then the analysis |
| GateLoop.Gate.Reload | internal/gate/gate.go:95-106 | an overlay that merges replaces the ruleset in force; one that does not leaves it as it was |
| GateVerdicts.AllowExactly | internal/gate/gate.go:269-420 | Allow if and only if a declarative condition on each token holds and every call that asks is granted; Deny if and only if the condition fails |
| GateVerdicts.AllowedBy | internal/gate/gate.go:362-368 | an allowed statement is attributed to the read rule of its leading keyword |
| GateVerdicts.OneStatement | internal/gate/gate.go:460-474 | in an allowed statement the read keywords that could begin another statement, and that no set operator explains, number at most one for a leading WITH and one for a leading prefix rule |
| GateVerdicts.BoundariesExplained | internal/gate/gate.go:460-474 | all such keywords are explained if and only if no more are left over, besides the body of a leading WITH, than a leading prefix rule explains |
| GatePlain.DecisionIsPlain | internal/gate/gate.go:232-420 | from the ruleset as written and the tokens alone, with no index and no state: a decision is no denial if and only if the statement is short enough, reads, and nothing in it is out of order; and allows if and only if moreover every call in question is approved |
| GatePlain.VerdictIsPlain | internal/gate/gate.go:269-420 | the same of the analysis of any tokens |
| GatePlain.SecondStarts | internal/gate/gate.go:452-474 | in a statement that is not denied a read keyword outside parentheses, after the first token and no table hint, has directly before it union, all, intersect, except or minus unquoted, or is the one query of a leading WITH, after a closing parenthesis, or the one statement of a prefixing keyword |
| GatePlain.JoinedNeverRefuses | internal/gate/gate.go:452-474 | if each such keyword has one of those five words before it, and nothing else is out of order, the statement is not denied |
| GatePlain.RefusalIsPlain | internal/gate/gate.go:269-420 | a denial is attributed to the first token out of order and, of the checks on that token, to the first that fails, with the identifier of the rule it fell under: of phrases the longest and then the first, of names the last rule for them |
| GatePlain.ListsArePlain | internal/gate/gate.go:395-420 | what is pending is exactly what calls in question ask for and is not granted, and what was used exactly what they ask for, each in the order first asked; the decision names the first pending or the rule of the leading keyword |
| GatePlain.DecidedBefore | internal/gate/gate.go:232-261 | which statements are denied before any analysis, and why, in the order of the checks |
| GateVerdicts.WalkSays | internal/gate/gate.go:303-393 | after any number of tokens the walk's depth, flags and obstacles are what the conditions on the tokens before say |
| GateGrants.GrantsNeverChangeADeny | internal/gate/gate.go:398-401 | a refusal and its attribution are the same under every set of grants |
| GateGrants.PendingIsWhatApprovalNeeds | internal/gate/gate.go:403-419 | adding grants to a pending decision allows it if and only if they cover everything pending, none of which was granted |
| GateGrants.GrantsUsedAreMinimal | internal/gate/gate.go:403-417 | an allowed statement is allowed by exactly the sets of grants that hold all it used |
| GateGrants.PendingIsDistinct | internal/gate/gate.go:284-290 | no grant is asked for, or reported used, twice |
| GateExemptions.CollisionsSeenExactly | internal/gate/ruleset.go:313-348 | the collision check sees every engine a name is safe on if and only if the name's allowances, in their order, add up |
| GateExemptions.OutOfOrderIsMissed | internal/gate/ruleset.go:320-329 | of an allowance for one engine after one for all, the check remembers the one engine, and sees no collision on another |
| GateExemptions.OrderedIsSeen | internal/gate/ruleset.go:320-329 | with no scoped allowance after an unscoped one, every collision is seen |
| GateExemptions.ExemptPhrases | internal/gate/gate.go:354-360 | where the allowances add up, a forbidden phrase that a call disables is the one word called, and the ruleset either argues for it or lists a dotted name as safe |
| GateExemptions.MatchAtCall | internal/gate/gate.go:428-448 | at a call the forbidden phrase found depends on the word alone: the first rule in force that is that one word |
| GateExemptions.UnarguedExactly | internal/gate/ruleset.go:313-348 | in any valid ruleset, a forbidden keyword no rule argues for can be called and pass if and only if it is the first rule in force for that word and the allowances of the word, in their order, do not add up or a dotted name ending in it is allowed |
| GateExamples.OutOfOrderAllows | internal/gate/ruleset.go:320-348 | a valid ruleset with such a keyword, forbidden on SQL Server and allowed out of order, and a statement that calls it and is allowed there |
| GateExamples.DottedNameAllows | internal/gate/gate.go:422-424 | a valid ruleset with such a keyword, forbidden everywhere and allowed under a dotted name, and a statement that calls it so and is allowed on every engine |
| GateLines.LinesTokenize | internal/gate/lexer.go:69-143 | words and marks written one to the line tokenize, in every dialect, to exactly those words and marks |
| GateTightening.TighteningIsMonotone | internal/gate/ruleset.go:185-241 | under an overlay that only forbids more, removes safe functions or lowers the bound, no statement's verdict is looser than before, for any grants |
| GateTightening.AnalysisNoLooser | internal/gate/gate.go:269-420 | two runs of the analysis under a stricter and a looser ruleset: the stricter one's verdict is never the looser |
| GateRemoval.RemovalLoosensExactly | internal/gate/gate.go:335-393 | an overlay that only removes read rules and merges loosens a statement's verdict if and only if: the statement passes every check left; a removed keyword stands where a second statement could begin, or the leading keyword's rule newly explains one; and before, more such places were left over than explained, or a call asked in vain that no longer asks |
| GateRemoval.UntouchedIsNoLooser | internal/gate/gate.go:335-393 | so a statement with no removed keyword at such a place, led by a keyword whose rule explains no more than it did, is decided no looser |
| GateRemoval.AnalysisLoosensExactly | internal/gate/gate.go:269-420 | the same of any tokens under two rulesets that differ in read keywords only |
| GateRemoval.NoLongerAsks | internal/gate/gate.go:479-500 | a call stops asking only where the body of a leading WITH is no longer marked, so that it may be a query's name |
| GateRemoval.ReadsLeft | internal/gate/ruleset.go:185-241 | after such an overlay a keyword leads statements if and only if some rule for it was not removed |
| GateExamples.RemovingAReadRuleLoosens | internal/gate/gate.go:379-388 | a valid ruleset, an overlay that removes a read rule and merges, and a statement denied before and allowed after, on every engine |
| GateComments.CommentsChangeNothing | internal/gate/lexer.go:69-143 | a line of text that tokenizes to nothing changes no decision, within the length bound |
| GateOverlay.DiffAgainstBaseline | internal/mcp/overlay.go:63-125 | the differences reported are exactly the rules added, removed and changed, the safe functions and the bound |
| GateDiff.DifferencesAre | internal/mcp/overlay.go:63-208 | of any two valid rulesets: which rules and safe names are listed as added, removed or replaced, and with what |
| GateDiff.DiffOfOverlay | internal/mcp/overlay.go:63-125 | of an overlay that merges: listed as added is what it brings under a new identifier, as removed what it removes and does not bring back, as replaced what it removes and brings back otherwise |
| GateOverlay.RulesById | internal/mcp/overlay.go:152-167 | the index holds for each identifier the last rule that has it |
| GateOverlay.EmptyDiffSameVerdict | internal/mcp/overlay.go:57-125 | an overlay that merges and leaves an empty diff decides every statement as the baseline, with the same pending and used grants, for every engine and grants, where an engine's read keywords are unique |
| GateOverlay.VersionOnlyOverlay | internal/mcp/overlay.go:57-125 | the overlay that says only its version merges to the baseline and leaves an empty diff |
| AuthSealing.OpensExactlyWhatWasSealed | internal/auth/sealing.go:206-356 | a value opens for a purpose if and only if it has that purpose's prefix and its letters spell, in any of their spellings, bytes this server sealed for it; and then to what was sealed |
| AuthSealing.RespeltOpens | internal/auth/sealing.go:241-275 | every sealed value has other spellings that open alike: a line break anywhere among its letters makes one |
| Base64.DecodesExactly | internal/auth/sealing.go:249-252 | letters are read as some bytes if and only if, line breaks dropped, they are the letters those bytes are written in, but for the bits of the last that stand for nothing |
| Base64.RoundTrip | internal/auth/sealing.go:238-238 | what is written is read back, and its letters hold no stop and no line break |
| Base64.IgnoredBits | internal/auth/sealing_test.go:22-32 | whatever the last letter's spare bits are, the same bytes are read |
| Base64.BitsAreKept | internal/auth/sealing.go:238-238 | four letters count to the number of 24 bits that three bytes make, two or three at the end to that of one or two bytes with the spare bits zero |
| AuthSealing.RelabellingFails | internal/auth/sealing.go:256-356 | a value relabelled for another purpose does not open, however it is spelt, with the error that says why |
| AuthSealing.WireIsMarked | internal/auth/sealing.go:122-138 | everything sealed, however spelt, carries the marker that keeps it from third parties |
| AuthRuns.RunKeeps | internal/authflow/token.go:163-310 | every run, across restarts, replays and relabelling, keeps the invariant that accounts for each sealed value in existence by a step of the history |
| AuthRuns.StepKeeps | internal/authflow/token.go:136-310 | every step keeps the accounting of what was sealed, from what, and for whom; what each step hands out is in the laws of `AuthLaws` |
| AuthTheorems.EveryAdmissionTraces | internal/auth/middleware.go:105-270 | in every run, whatever is replayed, swapped, relabelled or respelt, each admitted request stands on an authorize step with a registered redirect and an S256 challenge, a callback with a verified allowed identity, a redeemed verifier hashing to that challenge, and an issue less than an hour before |
| AuthTheorems.WithdrawalEnds | internal/authflow/token.go:163-310 | once Google stops honouring a grant, no request under it is admitted one hour and five minutes later or after |
| AuthTheorems.HonestClientAdmitted | internal/authflow/exchange.go:263-345 | a client that follows the flow is admitted if and only if it redeems within five minutes and asks within the hour after, even if its grant is withdrawn meanwhile |
| AuthTheorems.RefreshLeadsBack | internal/authflow/token.go:218-280 | a refresh credential, however many renewals deep, leads back to a redeemed code of the same grant |
| AuthTheorems.IssuedInTime | internal/authflow/token.go:163-280 | nothing is issued under a withdrawn grant five minutes after or later |
| AuthTheorems.SealedOnce | internal/authflow/token.go:286-310 | an access credential is sealed by one step only |
| AuthTheorems.OwnCredentialsStay | internal/auth/middleware.go:105-270 | nothing this server sealed, for any purpose and in any letters, is passed on as a token; one of another purpose is refused as that |
| AuthLaws.AuthorizeLaw | internal/authflow/exchange.go:263-286 | a state is sealed if and only if the redirect is registered and the challenge is an S256 one |
| AuthLaws.CallbackLaw | internal/authflow/exchange.go:299-365 | for a state that opens, a code is sealed if and only if the state is still fit, Google answered with a refresh token and the person has a subject, is verified and is on the list; and what is in it, for 300 seconds |
| AuthLaws.CallbackRefusals | internal/authflow/exchange.go:299-365 | which of the four refusals a callback gets, each if and only if |
| AuthLaws.RedeemLaw | internal/authflow/token.go:163-216 | a code is redeemed if and only if it is presented in time with its verifier and a registered redirect by someone still on the list; the access credential then lets that person in for exactly 3600 seconds, and the refresh credential renews with the secret in the code |
| AuthLaws.RedeemRefusals | internal/authflow/token.go:163-216 | which refusal a code gets |
| AuthLaws.RenewalLaw | internal/authflow/token.go:218-270 | a renewal succeeds if and only if what the credential opens to can be sent to Google, Google renews and the person is welcome; the new access credential lets that person in for exactly 3600 seconds, and the credential the client then holds makes the next renewal send what Google answered with, or what was sent before if it answered with nothing |
| AuthLaws.RenewalRefusals | internal/authflow/token.go:218-270 | which refusal a renewal gets, each if and only if |
| AuthLaws.OtherGrants | internal/authflow/token.go:136-161 | any other grant is refused as unsupported and changes nothing |
| AuthLaws.AdmitLaw | internal/auth/middleware.go:105-270 | a request is let in by a sealed credential if and only if its one bearer token opens to an access credential that has not run out, for someone with a subject and an address, on the list and verified |
| AuthLaws.AdmitRefusals | internal/auth/middleware.go:105-297 | which failure any other request is answered with |
| AuthLaws.MarkedExactly | internal/auth/sealing.go:122-138 | a value is taken for this server's own if and only if it begins with `cdb`, figures and a colon |
| AuthLaws.WrongPurposeExactly | internal/auth/sealing.go:241-254 | a value is refused as of the wrong purpose if and only if it is written as one of another |
| RedisText.ParsesExactlyThePrinted | internal/redisgate/rules.go:55-79 | an argument is accepted as the integer n if and only if n is an int64 and the argument is what a printer writes for it |
| RedisText.ReadInt | internal/redisgate/rules.go:55-79 | the digit loop and the conversion return that integer |
| RedisText.ReadCursor | internal/redisgate/rules.go:81-92 | a cursor is at most twenty digits that fit 64 unsigned bits |
| RedisText.AsciiLower | internal/redisgate/gate.go:156-169 | the buffer is edited in place from the first capital, and only if there is one |
| RedisText.AsciiEqualFold | internal/redisgate/gate.go:181-195 | true exactly when the lower-cased argument is the word |
| RedisGrammar.AcceptsExactlyTheGrammar | internal/redisgate/rules.go:155-202 | a scanner accepts arguments if and only if they split into options of its table, no two excluding each other, with their values in range; the split is unique and its keys are what the scanner saw |
| RedisGrammar.CommandsAcceptTheirGrammar | internal/redisgate/rules.go:155-794 | each command with options is accepted if and only if such a split exists with the options it demands |
| RedisLoops.ReadScanOptions | internal/redisgate/rules.go:155-202 | the loop over flags answers as the option table |
| RedisLoops.ReadListPos | internal/redisgate/rules.go:389-459 | the same for LPOS |
| RedisLoops.ReadZRange | internal/redisgate/rules.go:503-558 | the same for ZRANGE, with the combinations its switch allows |
| RedisLoops.ReadZRangeBy | internal/redisgate/rules.go:560-591 | the same for the score and lex ranges |
| RedisLoops.ReadXRange | internal/redisgate/rules.go:603-628 | the same for XRANGE |
| RedisLoops.ReadGeoSearch | internal/redisgate/rules.go:696-794 | the same for GEOSEARCH, COUNT's trailing ANY included |
| RedisGate.IndexAllowlist | internal/redisgate/allowlist.go:105-120 | the two maps hold, for every command and every subcommand, the last entry of that name and nothing else |
| RedisGate.Validate | internal/redisgate/gate.go:98-150 | the decision: bounds on length and bytes, then container, command, catalogue, in that order |
| RedisServed.ServesKind | internal/redisgate/allowlist.go:27-101 | the list serves exactly the commands and subcommands written out, each under the check written beside it |
| RedisServed.VerdictFits | internal/redisgate/rules.go:26-794 | each check accepts exactly the arguments written out for it: how many, which are integers and in what range, which flags, which options in any order and which of them there must be |
| RedisServed.AllowsExactly | internal/redisgate/gate.go:98-150 | a command is allowed if and only if it is within the bounds, is one of those, and its arguments fit; and the rule it went by is named in lower case |
| RedisServed.BoundsRefuse | internal/redisgate/gate.go:98-116 | an empty argv, too many arguments and too many bytes are refused first, in that order |
| RedisServed.RefusesUnnamed | internal/redisgate/gate.go:117-139 | a command the list does not name is refused for its missing or unknown subcommand, as unbounded, as forbidden or as unknown |
| RedisRefusals.OptionsRefused | internal/redisgate/rules.go:155-202 | of options read in order, the first that cannot be read refuses: an unknown word, by its place in the argv; one about what another was; one with too few values; one with a value out of range |
| RedisRefusals.ValuesRefused | internal/redisgate/rules.go:117-153 | the reason each kind of value is refused for |
| RedisRefusals.SizeRefused | internal/redisgate/rules.go:26-53 | an argument count no form of the command has is refused as such, before anything else |
| RedisRefusals.PlainRefused | internal/redisgate/rules.go:226-387 | the reason a command with no options is refused for |
| RedisRefusals.ReadButWanting | internal/redisgate/rules.go:389-794 | once its options are read, what a command is still refused for |
| RedisCase.CaseNeverMatters | internal/redisgate/gate.go:98-195 | the whole decision is the same for the argv in lower case, values included |
| RedisCase.NamedArgumentIsThere | internal/redisgate/gate.go:141-150 | a refusal names an argument if and only if it is an unknown argument, and the index is within the argv |
| RedisWork.WindowIsExact | internal/redisgate/rules.go:135-153 | a window is accepted if and only if both ends are non-negative and no collection could hold more than the limit in it; no subtraction overflows |
| RedisWork.LimitIsExact | internal/redisgate/rules.go:471-496 | LIMIT is accepted if and only if no range is walked further than the limit, skipped and returned together |
| RedisWork.MaxlenIsExact | internal/redisgate/rules.go:434-446 | MAXLEN is accepted if and only if no list has more than the limit of its elements compared |
| RedisWork.IndexIsExact | internal/redisgate/rules.go:358-373 | LINDEX is accepted if and only if no list is walked further than the limit from its nearer end |
| RedisWork.ListRangeIsExact | internal/redisgate/rules.go:375-387 | LRANGE is accepted if and only if neither end is negative and no list is walked further than the limit from its head to the stop; for a start not after the stop that is the walk it makes |
| RedisWork.RandomIsExact | internal/redisgate/rules.go:331-356 | a random read is accepted if and only if it names no count, or a count that, either sign, asks for no more than the limit, with its own flag after it or nothing |
| RedisWork.WorkIsBounded | internal/redisgate/rules.go:42-794 | whatever a list, sorted set, stream or keyspace holds, an accepted range, scan, search, random read or list of keys asks for or returns no more of it than its limit |
| RedisWork.AllowedIsBounded | internal/redisgate/gate.go:98-150 | an allowed command is one the allowlist names, within the argument and byte limits, and what it asks for or returns is within the limit for its kind |
| ReplyBounds.Bound | internal/redisdb/reply.go:42-49 | the bounding object, recursing over the reply, answers as the specification |
| ReplyBounds.Bounder.ReadValue | internal/redisdb/reply.go:57-72 | the value and the whole state after it |
| ReplyBounds.Bounder.ReadText | internal/redisdb/reply.go:74-84 | the kept bytes, the budget left, the label and the exhaustion |
| ReplyBounds.Bounder.ReadArray | internal/redisdb/reply.go:86-103 | the capped items up to the one that exhausts the budget, and the state after them |
| ReplyCuts.ReplyIsAPrefix | internal/redisdb/reply.go:42-103 | no array is longer than the cap and the bytes kept are within the budget; the reply is the capped reply, or that up to a byte of one string, depth first, exactly when the strings hold more than the budget, all of which is then spent |
| ReplyCuts.LabelIsTruthful | internal/redisdb/reply.go:42-103 | the label, of the reply alone: the cap if and only if an array was over its cap before the strings ran over the budget; the budget if and only if not, and they ran over it; none if and only if every array is within the cap and the strings within the budget, which is if and only if nothing was dropped |
| ReplyCuts.FirstLabelHidesTheCut | internal/redisdb/reply.go:51-55 | a reply whose label of a capped array hides a later cut string |
| ReplyCuts.NativeIsAnswered | internal/redisdb/reply.go:57-72 | a reply of RESP2 values only is always answered |
| ReplyLaws.FailsExactly | internal/redisdb/reply.go:57-103 | bounding fails if and only if something of a foreign kind is met, depth first within the caps, before the budget is overrun |
| Utf8.ValidPrefixIsLongest | internal/redismcp/encode.go:78-86 | the text read character by character is the longest beginning that is UTF-8 at all (section 4 of RFC 3629) |
| Utf8Laws.TextIsCharacters | internal/redismcp/encode.go:66-86 | bytes are text if and only if they are characters one after another, each a code point but a surrogate, in the bytes section 3 of RFC 3629 gives it |
| Utf8Laws.BegunExactly | internal/redismcp/encode.go:78-86 | a trail is incomplete if and only if some character begins with it and goes on |
| ReplyEncoding.TrimIsLongest | internal/redismcp/encode.go:78-86 | what the trimming loop returns is that longest beginning, at most three bytes shorter |
| ReplyEncoding.CutIsMended | internal/redismcp/encode.go:66-86 | text cut at any byte is written as text, its longest beginning that ends at a character |
| ReplyEncoding.CutIsTheLastLeaf | internal/redismcp/encode.go:20-64 | the leaf that is mended, the last one counted, is exactly the string the budget cut |
| ReplyEncoding.TextStaysText | internal/redismcp/encode.go:20-86 | from the driver's reply to the client: a reply whose strings are all text is written with base64 in it if and only if an array was over its cap before the budget ran out, and it then ran out inside a character; otherwise it is written as it is, but for the one string the budget cut, mended unless a capped array's label hides it |
| ReplyLaws.StringIsWritten | internal/redismcp/encode.go:66-86 | a string is written as text if it is text; the one that was cut, without the unfinished character if that is all that is wrong; any other, in base64, byte for byte |
| ReplyLaws.ReplyReadsBack | internal/redismcp/encode.go:20-86 | any bounded reply reads back as it was, and only what is no text is in base64; under the label of the byte budget the last leaf, if a string, reads back so tidied |
| ReplyEncoding.HiddenCutIsNotMended | internal/redismcp/encode.go:20-31 | such a reply: the first label hides the cut, and the cut text goes out as base64 |
| ReplyEncoding.Encode | internal/redismcp/encode.go:20-26 | the encoding object answers as the specification |
| ReplyEncoding.Encoder.Encode | internal/redismcp/encode.go:33-53 | the output, and the leaf counter advanced by the leaves of the value |
| ReplyEncoding.TrimTrail | internal/redismcp/encode.go:78-86 | the first of three lengths at which a character breaks off |
| ReplyEncoding.CountLeaves | internal/redismcp/encode.go:55-64 | the leaves, counted by recursion over the arrays |
| EditDistance.EditDistance | internal/db/missing.go:832-851 | the two swapped rows hold the recursive edit distance |
| EditDistance.NoCheaper | internal/db/missing.go:832-851 | no sequence of edits that turns one name into the other is cheaper than the distance |
| EditDistance.SomeAsCheap | internal/db/missing.go:832-851 | and one is exactly as cheap |
| EditDistance.Triangle | internal/db/missing.go:832-851 | the distance satisfies the triangle inequality |
| EditDistance.DistanceIsSymmetric | internal/db/missing.go:832-851 | it is symmetric |
| EditDistance.DistanceZero | internal/db/missing.go:832-851 | it is zero exactly between equal names |
| EditDistance.DistanceBounds | internal/db/missing.go:832-851 | it is at least the gap in length and at most the longer length |
| ClosestNames.ClosestNames | internal/db/missing.go:797-830 | at most three distinct acceptable candidates, nearest first and then by name, and none omitted that is better than one returned |
| ClosestNames.BestAreFirstThree | internal/db/missing.go:797-830 | those are the first three of the candidates within one edit for a name of up to three runes, two for up to seven and three for any longer, fewest edits first and then rune by rune |
| ClosestNames.BestIsUnique | internal/db/missing.go:819-829 | nothing else is an answer for those rows |
| ClosestNames.LengthFilterLosesNothing | internal/db/missing.go:797-818 | leaving out candidates whose length differs by more than three changes no answer |
| MissingLoops.ReadStatement | internal/db/missing.go:154-234 | the lexing loop returns what its steps say |
| MissingLoops.Read | internal/db/missing.go:154-232 | one turn of it, for every kind of token and comment |
| MissingLoops.ReadBlockComment | internal/db/missing.go:256-284 | the depth loop and the MySQL search find the end specified |
| MissingLoops.ReadLiteral | internal/db/missing.go:286-306 | doubled quotes and backslashes as each engine has them |
| MissingLoops.ReadDelimited | internal/db/missing.go:308-323 | the builder holds the name with its doubled delimiters read as one |
| MissingLoops.ReadDollar | internal/db/missing.go:325-350 | a parameter, a tagged literal or a lone dollar |
| MissingLoops.ReadReferences | internal/db/missing.go:364-389 | the dotted references of the statement, in order |
| MissingLoops.FindInStatement | internal/db/missing.go:444-494 | the reference reported, or that none can be |
| MissingReported.DelimitedRoundTrip | internal/db/missing.go:308-323 | any name with its closing delimiters doubled is read back as itself |
| MissingReported.LexIsFaithful | internal/db/missing.go:154-234 | every token is text of the statement where it says it stands, in order and apart, a delimited name without inner delimiters included |
| MissingReported.ReportedIsFromTheStatement | internal/db/missing.go:422-494 | whatever is reported missing is a stretch of the statement made of plain names of it with dots between |
| MissingReported.ReportedIsClean | internal/db/missing.go:122-129 | so it holds no reserved character but those dots, and neither begins nor ends with one |
| MissingLaws.UnpointedReports | internal/db/missing.go:377-494 | where the engine pointed at no place, something is reported if and only if some dotted name of the statement ends as the missing name does, every one that does is fit to be repeated, and all end in the same letters; and then what, with what qualifier, and whether all agree on that |
| MissingLaws.PointedReports | internal/db/missing.go:377-494 | where it pointed, exactly the dotted name it pointed into is reported, if that could be meant and is fit to be repeated |
| MissingDialects.StringLiteral | internal/db/missing.go:154-234 | on every engine a text between single quotes, its quotes doubled, is one literal, the prefix before it included; a backslash escapes in PostgreSQL's E literals and stands for itself on SQL Server |
| MissingDialects.BackslashRefuses | internal/db/missing.go:286-306 | elsewhere a backslash in a literal makes the statement unreadable |
| MissingDialects.DoubleLiteral | internal/db/missing.go:154-234 | on MySQL and SQL Server double quotes delimit a literal |
| MissingDialects.DelimitedName | internal/db/missing.go:308-323 | any name between PostgreSQL's double quotes, MySQL's backticks or SQL Server's brackets, its closer doubled, is that name |
| MissingDialects.UnendedName | internal/db/missing.go:308-323 | one that is not closed makes the statement unreadable |
| MissingDialects.UnendedLiteral | internal/db/missing.go:286-306 | so does a literal that is not |
| MissingDialects.BareName | internal/db/missing.go:154-242 | a bare name is a whole run of letters, figures, underscores, dollar signs and bytes past ASCII, on PostgreSQL beginning with no dollar sign |
| MissingDialects.LineComment | internal/db/missing.go:154-234 | `--`, and on MySQL `#`, begin a comment that ends with the line |
| MissingDialects.FlatComment | internal/db/missing.go:256-284 | on MySQL a comment ends at the first star and slash |
| MissingDialects.CodeRefuses | internal/db/missing.go:256-284 | and one that is code makes the statement unreadable |
| MissingDialects.NestedComment | internal/db/missing.go:256-284 | on the others comments nest, to any depth |
| MissingDialects.UnendedComment | internal/db/missing.go:256-284 | a comment that never ends makes the statement unreadable |
| MissingDialects.DollarLiteral | internal/db/missing.go:325-350 | on PostgreSQL what stands between two equal tags is a literal |
| MissingDialects.UnendedDollar | internal/db/missing.go:325-350 | and one whose tag does not occur again makes the statement unreadable |
| MissingDialects.Parameter | internal/db/missing.go:325-350 | on PostgreSQL a dollar sign and figures are no name |
| MissingDialects.LoneDollar | internal/db/missing.go:325-350 | nor is a dollar sign that opens no quote |
| MissingDialects.Mark | internal/db/missing.go:154-234 | any other character is a mark by itself |
| TokenCache.Validator.Validate | internal/auth/tokeninfo.go:277-373 | the answer and the whole cache after it are those of the specification, which `TokenLaws.CallReturns` and `TokenLaws.CallLeaves` restate from what was asked and answered |
| TokenCache.Validator.Cached | internal/auth/tokeninfo.go:382-397 | a live entry moves to the front, an aged one is dropped, and list and map stay in step |
| TokenCache.Validator.Store | internal/auth/tokeninfo.go:399-413 | the entry goes to the front in place of its key's or, over capacity, of the last; list and map stay in step |
| TokenRuns.HitWasAccepted | internal/auth/tokeninfo.go:363-397 | over any interleaving of lookups and answers a hit is what Google last vouched for of that key: status 200, audience and party this client, a subject, an `exp` not over; it gives the response's own claims, before `exp` or that many seconds after the answer, and within 300 seconds of the answer |
| TokenRuns.AcceptedExactly | internal/auth/tokeninfo.go:192-373 | an answer is accepted if and only if it has status 200, matching `aud` and `azp`, a subject, and an `exp` that is an instant of 2020 or later not yet over, or from one second to a day of seconds left; when it is rejected, and when it is not known |
| TokenLaws.AfterAnAcceptance | internal/auth/tokeninfo.go:363-413 | what is accepted is remembered at once with the claims and the end it has, and another key is lost for it if and only if 128 others are remembered, the new one not among them, and all were used since |
| TokenLaws.AfterALookup | internal/auth/tokeninfo.go:382-397 | a lookup loses a key if and only if it was asked for and had run out |
| TokenLaws.AfterARefusal | internal/auth/tokeninfo.go:363-371 | what is not accepted changes nothing |
| TokenLaws.CallReturns | internal/auth/tokeninfo.go:277-373 | a call returns claims if and only if they are remembered and not over, or a slot was free and Google vouched; which claims; and when it says to try again |
| TokenLaws.CallLeaves | internal/auth/tokeninfo.go:277-373 | and leaves the cache as its lookups and its answer do |
| TokenRuns.CacheIsByUse | internal/auth/tokeninfo.go:382-413 | the list is in the order its keys were last used |
| TokenRuns.CacheIsBounded | internal/auth/tokeninfo.go:399-413 | it never holds more than 128 entries |
| TokenRuns.CacheIsDistinct | internal/auth/tokeninfo.go:399-413 | it never holds a key twice |
| TokenRuns.LeavesTheCache | internal/auth/tokeninfo.go:382-413 | a key leaves by ageing out at a lookup, by a newer answer, or when the cache is full and every key left was used since |
| RowBudget.WithinByteBudget | internal/mcp/rows.go:185-221 | the answer unchanged if and only if it fits; otherwise, marked, a beginning of whole rows that fits, the longest for an answer marked as cut just when its label says so; an error if and only if the rows before the first that cannot be encoded fit |
| RowBudget.CutIsMost | internal/mcp/rows.go:199-220 | the row at which the count stops is the first that does not fit, and no later row could |
| RowBudget.MostRowsFit | internal/mcp/rows.go:185-221 | the sizes compared are the lengths of the answer as it is sent, commas and label included: the rows kept are the most of which that is within the budget |
| SchemaSearch.PatternFindsTheSubstring | internal/db/schema.go:142-149 | the escaped pattern matches, as LIKE, exactly the texts that hold the caller's text, `%`, `_` and `!` being themselves |
| SchemaSearch.SearchFindsWhatWasTyped | internal/db/schema.go:142-149 | a search of two characters or more, once trimmed, has a pattern, which matches the texts that hold what was typed; a shorter one has none |
| SchemaSearch.SchemaTables | internal/db/schema.go:180-256 | the longest run of rows the budget pays for, grouped by table in order of first mention with each table's columns in order, and only the table cut into marked, when it was already open |
| SchemaSearch.Add | internal/db/schema.go:224-253 | one paid row opens a table or extends it, and the name index stays in step |
| SchemaSearch.ReadsExactly | internal/db/schema.go:193-222 | which catalogue rows count, and with which column |
| SchemaSearch.ChargeIsTotal | internal/db/schema.go:114-256 | what rows are charged is what the tables answered for them cost: 72 bytes and its names for a table, 48 and its name and type for a column |
| SchemaSearch.KeysInOrder | internal/db/schema.go:224-253 | each table stands where the first row of it does |

## Left out

- GateLoop.Gate.Reload: does not model two goroutines at once; the ruleset in force is one field, replaced whole, where the code swaps it atomically.
- GateRulesLoops.Validate: does not say which error a refused ruleset gets, only that it is refused.
- GateOverlay.DiffAgainstBaseline: does not model the order and the rendering of the differences, only which they are.
- GateVerdicts.AllowExactly: reasons are those of the analysis; the wording of a decision's detail is not modelled.
- AuthTheorems.HonestClientAdmitted: does not model failures of sealing or of encoding a response, which the code reports as unavailable.
- AuthTheorems.EveryAdmissionTraces: does not cover the gateway's assertion or Google's access tokens, the two other ways in, and takes each call to Google and each clock read as one step.
- AuthSealing.OpensExactlyWhatWasSealed: key derivation and authenticated encryption are idealised: no bytes open but those sealed, and no two sealings draw the same bytes; the source of Go's encoding/base64 is not part of this model, and its decoder is written from its documentation.
- MissingLoops.FindInStatement: the engine's position is taken as a byte offset; counting its runes is left out.
- ClosestNames.ClosestNames: the library's sort is an insertion sort; the order it sorts by is the code's.
- TokenCache.Validator.Validate: slots are whether one is free; the two clock reads around an answer are one instant, and instants that overflow the library's range are not modelled.
- RedisWork.WorkIsBounded: counts what a command asks for or returns, not what Redis visits to find it: GEOSEARCH without ANY visits its whole area, and a summary (XPENDING with no range, XINFO STREAM and MEMORY USAGE with no number) counts for nothing.
- GateDialects.ExecutableComment: states it of code with no star in it, on lines of its own.
- RedisRefusals.OptionsRefused: does not say which word is refused where that is an ANY, which a COUNT before it would take.
- RowBudget.WithinByteBudget: for an answer marked as cut whose label denies it, or the reverse, which no caller builds, says that the beginning kept fits, not that it is the longest.
- Handlers, headers, status codes, logging, audit, the deletion of credentials from requests, and the registration of tools: plumbing around the decisions.
- Database and Redis drivers, pools, transactions, TLS and connection strings: foreign calls; their rows and replies are arbitrary inputs.
- JSON decoding, environment configuration and tables of error codes: one-branch facts.
- The SQL statements over the catalogues, and the decoding of a driver's values into text, booleans and columns.
- Choosing the tables a missing column is looked for in (internal/db/missing.go:511-737): it narrows a search whose answer is held to the same rules either way.
- Describing tables (internal/db/describe.go): the same kind of budgeted prefix as the catalogue search, once more.
- Agreement between the gate's lexer and the one that looks for missing names: the two read some text differently on purpose.
