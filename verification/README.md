# Models and proofs for the Koschei API

Dafny models of the self-contained logic in `koschei/api/internal`, with proofs of what that logic is for. Every module
models one part of the service; the methods follow the source step by step and are proved against specification
functions, and the lemmas prove what the source promises about those functions. `dafny verify dfyconfig.toml` checks the
whole project.

## What is modelled

**Scenario contracts.** `JsonText`, `JsonValue`, `JsonReader`, `JsonDecoder` and `JsonCanonical` model the reader that
rejects repeated member names (section 4 of RFC 8259, section 2.3 of RFC 7493) and the canonical printer, from
characters to values. `JsonNumbers`, `JsonSpellings` and `JsonLayouts` say without the decoder what a text spells
(sections 2, 6 and 7 of RFC 8259): numbers by their parts, characters as themselves, short escapes, escapes in digits of
either case, surrogate pairs and lone halves, tokens with white space between them. The grammar above the tokens is
given by rendering syntax trees; the class `JsonDecoder.Decoder` is the token decoder that the recursive reader
consumes, with its states after a comma, a key and a colon. `ScenarioSafety` is the walk over the parsed document for
members that must be false. `ScenarioCases` is the check of the case matrix, whose matched values are compared by their
canonical text. `ScenarioFields` is the decoding of the contract's text fields, and what canonical texts say about them.

**Defense validation.** `ValidationModel` holds the entities, the normalization of the input and the validity
conditions; `ValidationSpec` says when an input is accepted and which report its evidence determines, over sets of
controls, cases and observations; `ValidationVerdicts` proves what the verdicts mean and that the counts are conserved,
`ValidationReasons` says which rules, times, references, hashes and remarks each result gives, and `ValidationExample`
shows that all three verdicts occur on accepted inputs. `ValidationTally`, `ValidationEvaluator` and `ValidationRun` are
the evaluator as it runs, sorts included: sorting promises only an ordered arrangement, so equal keys may come out in
any order, and the report is still determined because equal keys are rejected. `Adapters` models the two adapters that
turn execution-integrity evidence into cases and observations, `Provenance` what such evidence vouches for,
`ProvenReports` what stands behind the results of a report, and `AdaptersExample` a run made of such evidence.
`ValidationService` is the service in front: the registry of collector keys, the controls, the adapters and the
evaluator; `ServiceExample` is a request that it answers. Offsets are unbounded integers of milliseconds; the one
subtraction is of two offsets between zero and the window, so the 64-bit arithmetic of the service cannot overflow
there.

**Program accounts.** `Base58` is the in-place base conversion (section 3 of draft-msporny-base58), `Addresses` the
length of encoded keys, `ProgramAccounts` the full account parsers, the 45-byte header reader and the two inspections
over one chain state, and `ProgramLayouts` the account layouts from the side of a writer.

**Materialization.** `Paths` is lexical path cleaning and the safe-path rule, `PathPlaces` where a path leads when one
walks along it, `MaterialText` the text normalization on bytes, `Materialization` the producer, `MaterializationCheck`
the verifier that runs before execution and its agreement with the producer; `MaterializationExample` shows a product
that is accepted and products that are refused. The hash, the JSON text of the manifest and the text checks on the Cargo
files are functions given from outside; nothing is assumed of the hash, results say "or a collision" instead.

**Output capture.** `Utf8` is well-formedness and repair of UTF-8 (sections 3 and 4 of RFC 3629), `OutputCapture` the
clipping writer, the cut before storage and the whole pipeline.

**Queues and migrations.** `Followups`, `Alerts` and `OperatorNotifications` are step systems: every SQL statement is
one atomic step on the rows, a worker keeps a snapshot of the row it claimed, and any number of workers may be slow,
crash or settle a row late. Their `Table` classes are the statements and worker turns on mutable rows. `Migrations` is
the migration runner, many at a time with crashes and lost commit answers, and alone. Time is a natural number of
seconds.

**Cache and archive.** `MemoryCache` is the in-process cache with a read split at its lock boundaries. `MemoryArchive`
is the naming and lookup of archived memories, `MemorySearch` compares the lookup by name prefix with one by identity,
and `MemoryRedaction` is the redaction before writing.

## Where the code does not do what one might expect

- A cleaned path is not always a fixed point of cleaning (`./ a` cleans to ` a`), so the execution check refuses some
  bundles that the producer makes: exactly those with white space at the ends of a cleaned path, or larger than storage
  accepts (`Paths.SafePathFixedExactly`, `MaterializationCheck.ProducedIsAcceptedExactly`). Paths are cleaned when the
  stored source is decoded and again by the producer, so a stored `./ a` is accepted as `a`, while a stored `./ ./ a` is
  refused: what counts is white space after two cleanings (`MaterializationCheck.StoredIsAcceptedExactly`,
  `MaterializationExample.SpacedRefused`).
- The safe-path rule refuses more than paths that leave the root: also those whose place begins with two dots, as in
  `..a/b`, and those in a folder `.git` at any depth; a file of that name below another folder is allowed
  (`PathPlaces.SafePathExactly`).
- The fields of a scenario contract are decoded from the text as given, where names match up to letter case and the last
  match counts, and its digest is taken of the canonical text, where such names are different members in sorted order.
  Two contracts with one digest can so have different fields, exactly when two matching members give different texts
  (`ScenarioFields.CanonicalDecidesExactly`, `ScenarioFields.TwoReferences`).
- Alert deliveries are marked without looking at the row's status. A delivered alert is final exactly when no worker
  holds a snapshot of it, and a run exists in which a delivered alert is claimed again (`Alerts.DeliveredFinalExactly`,
  `Alerts.DeliveredClaimedAgain`).
- The doubling back-off of the queues hardly shows: a follow-up that is returned always waits 30 seconds, an operator
  notification at most 128, and the bound of 900 seconds is never reached (`QueueParts.BackoffRange`).
- Operator notifications have no recovery of abandoned claims: a row in processing whose holder crashed stays there
  forever, and a run ends so (`OperatorNotifications.ProcessingSettlesExactly`,
  `OperatorNotifications.AbandonedForever`).
- A cache read can delete a value written after it looked. A fresh value can be lost so exactly when some read in
  progress holds an older item of its key that expires earlier (`MemoryCache.FreshLossExactly`), and a run loses one
  (`MemoryCache.FreshValueLost`).
- Normalizing text strips one byte order mark, so it is idempotent exactly when the text does not start with two
  (`MaterialText.NormalizedExact`, `MaterialText.TwoMarksTwoPasses`).
- The archive reads one page of ten names. Dashes inside kinds and networks make names of different memories alike up to
  the digest, of which a name shows twenty digits; where those agree too, ten newer files of another memory hide a
  stored one. Otherwise the search by prefix is exact (`MemorySearch.SearchIsExact`, `MemorySearch.FullPageHides`,
  `MemorySearch.FullPageExample`).
- The header inspection of a program also succeeds where the bytecode is absent or longer than 12 MiB
  (`ProgramAccounts.InspectionsAgree`, `ProgramAccounts.EmptyLegacyProgram`).

## Model

| member | source | states |
|---|---|---|
| JsonNumbers.ValidNumberExactly | koschei/api/internal/defense/scenario_contract_v02.go:302-352 | the decoder's automaton accepts exactly the numbers made of an optional minus, an integer without leading zeros, an optional fraction and an optional exponent |
| JsonSpellings.CharacterRead | koschei/api/internal/defense/scenario_contract_v02.go:282-352 | every spelling of a character (itself, short escape, four hexadecimal digits of either case, surrogate pair, lone half) is read as that character, and reading goes on behind it |
| JsonSpellings.CharacterIsSpelled | koschei/api/internal/defense/scenario_contract_v02.go:282-352 | whatever character is read was so spelled |
| JsonSpellings.SpellingRead | koschei/api/internal/defense/scenario_contract_v02.go:282-352 | every spelling of a string is read as the string up to the closing quote |
| JsonSpellings.ReadIsSpelling | koschei/api/internal/defense/scenario_contract_v02.go:282-352 | whatever string is read was so spelled |
| JsonLayouts.ReadEscaped | koschei/api/internal/defense/scenario_contract_v02.go:282-352 | reading an escaped string gives the string back, for every string and whatever follows it |
| JsonLayouts.LexSpelled | koschei/api/internal/defense/scenario_contract_v02.go:282-352 | tokens in any of their spellings, with any white space between them, lex back to the same tokens |
| JsonLayouts.LexedIsSpelled | koschei/api/internal/defense/scenario_contract_v02.go:282-352 | a text that lexes without error is laid out of spellings of its tokens and white space |
| JsonLayouts.LexExactly | koschei/api/internal/defense/scenario_contract_v02.go:282-352 | where no two numbers stand side by side, a text lexes to given tokens exactly when it spells them |
| JsonLayouts.EscapedIsSafe | koschei/api/internal/defense/scenario_contract_v02.go:282-300 | escaped strings hold no control, HTML or line-separator character, and a string is escaped only where it must be |
| JsonReader.ReadRendered | koschei/api/internal/defense/scenario_contract_v02.go:302-352 | the reader accepts the rendering of every tree without repeated keys and returns its value |
| JsonReader.ReadIsRendering | koschei/api/internal/defense/scenario_contract_v02.go:302-352 | whatever the reader accepts is the rendering of a tree without repeated keys |
| JsonDecoder.Decoder.constructor | koschei/api/internal/defense/scenario_contract_v02.go:282-286 | a decoder starts with all tokens of the text and no open bracket |
| JsonDecoder.Decoder.Next | koschei/api/internal/defense/scenario_contract_v02.go:302-352 | one token is consumed and checked against the state after the last bracket, comma, key or colon |
| JsonDecoder.DecodeUnique | koschei/api/internal/defense/scenario_contract_v02.go:302-352 | the recursive reader over the stateful decoder computes exactly the reader's result on the remaining tokens |
| JsonDecoder.DecodeItems | koschei/api/internal/defense/scenario_contract_v02.go:336-348 | the array loop appends values until the closing bracket |
| JsonDecoder.DecodeMembers | koschei/api/internal/defense/scenario_contract_v02.go:312-335 | the object loop fills a map and fails at the first repeated key |
| JsonDecoder.DecodeDocument | koschei/api/internal/defense/scenario_contract_v02.go:282-300 | a document is one value with nothing after it |
| JsonCanonical.Canonicalize | koschei/api/internal/defense/scenario_contract_v02.go:282-300 | succeeds exactly where a canonical text exists and returns it |
| JsonCanonical.AcceptsExactlyDistinctDocuments | koschei/api/internal/defense/scenario_contract_v02.go:282-352 | accepted texts are exactly those that denote a tree with no repeated key in any object at any depth |
| JsonCanonical.SpellingsAreRead | koschei/api/internal/defense/scenario_contract_v02.go:282-352 | every text of such a tree, with each token in any of its spellings and any white space, is read as its value |
| JsonCanonical.DenotesLexed | koschei/api/internal/defense/scenario_contract_v02.go:282-352 | a text spells a tree's rendering exactly when its tokens are that rendering |
| JsonCanonical.PrintThenRead | koschei/api/internal/defense/scenario_contract_v02.go:282-300 | reading the canonical text of a value returns the value |
| JsonCanonical.CanonicalIsIdempotent | koschei/api/internal/defense/scenario_contract_v02.go:282-300 | canonicalizing twice equals canonicalizing once |
| JsonCanonical.PrintIsSafe | koschei/api/internal/defense/scenario_contract_v02.go:282-300 | canonical text holds no character that needs care inside HTML |
| JsonCanonical.SameUpToOrderIffSameValue | koschei/api/internal/defense/scenario_contract_v02.go:302-352 | two trees have the same value exactly when they differ only in the order of members, at every depth |
| JsonCanonical.CanonicalTextsAgree | koschei/api/internal/defense/scenario_contract_v02.go:282-352 | two accepted texts have the same canonical text exactly when they differ in white space, escapes and member order only |
| ScenarioFields.CanonicalDecidesExactly | koschei/api/internal/defense/scenario_contract_v02.go:164-206 | equal canonical texts fix a text field exactly when no two members matching it up to letter case give different texts, or the decoding fails anyway |
| ScenarioFields.ValueDecidesExactly | koschei/api/internal/defense/scenario_contract_v02.go:164-206 | the same for all documents with one value: the order of their members decides the field exactly when it is ambiguous |
| ScenarioFields.AssignedExact | koschei/api/internal/defense/scenario_contract_v02.go:193-196 | a field fails exactly when a matching member has another type, and else holds a text that a matching member gives, or none |
| ScenarioFields.TwoReadings | koschei/api/internal/defense/scenario_contract_v02.go:164-206 | any document that gives a field can be completed by a member whose name differs in letter case, before or behind: same canonical text, different field |
| ScenarioFields.TwoReferences | koschei/api/internal/defense/scenario_contract_v02.go:164-206 | two texts with equal canonical text and any two scenario references |
| ScenarioSafety.WalkAcceptsExactlySafeDocuments | koschei/api/internal/defense/scenario_contract_v02.go:208-258 | the walk accepts exactly the documents in which no path ends in a guarded member with a value other than false |
| ScenarioCases.DeclaredFields | koschei/api/internal/defense/scenario_contract_v02.go:412-427 | the trimmed field names, exactly when they are non-empty, distinct and at least one |
| ScenarioCases.CheckCase | koschei/api/internal/defense/scenario_contract_v02.go:431-486 | a case passes exactly when it is valid and agrees with the baseline of the first case |
| ScenarioCases.CheckMatrix | koschei/api/internal/defense/scenario_contract_v02.go:428-491 | agreement with the first case is agreement of every two cases; references are distinct and both kinds occur |
| ScenarioCases.ValidateScenarioCases | koschei/api/internal/defense/scenario_contract_v02.go:408-492 | the check accepts exactly the valid case matrices |
| Strings.SortBy | koschei/api/internal/defense/defense_validation_v02.go:588-594 | an unstable sort: some ordered arrangement of the same elements |
| ValidationSpec.AcceptedIsCoherent | koschei/api/internal/defense/defense_validation_v02.go:397-521 | an accepted input has one case and one observation per pair, a deadline on every attack and an offset on every alert, so scoring dereferences nothing absent |
| ValidationSpec.OrderIndependent | koschei/api/internal/defense/defense_validation_v02.go:543-596 | rearranging controls, cases and observations changes neither acceptance nor the report |
| ValidationVerdicts.OutcomeExact | koschei/api/internal/defense/defense_validation_v02.go:320-382 | the outcome of a scenario case is good, bad or incomplete exactly as its evidence is |
| ValidationVerdicts.VerdictExact | koschei/api/internal/defense/defense_validation_v02.go:168-231 | validated exactly when every control has, for every scenario case, full evidence of good behaviour; failed exactly when some full evidence shows the contrary |
| ValidationVerdicts.CountsConserved | koschei/api/internal/defense/defense_validation_v02.go:233-303 | attack plus benign cases, the six outcome counts and the number of results all equal the number of scenario cases, and neither kind is zero |
| ValidationVerdicts.ResultsInOrder | koschei/api/internal/defense/defense_validation_v02.go:300-302 | results come in strictly increasing order of case references, one for each |
| ValidationVerdicts.EveryOutcomeListed | koschei/api/internal/defense/defense_validation_v02.go:233-303 | every scenario case has a result |
| ValidationVerdicts.OnlyOutcomesListed | koschei/api/internal/defense/defense_validation_v02.go:233-303 | every result is that of a scenario case |
| ValidationReasons.RulesExact | koschei/api/internal/defense/defense_validation_v02.go:320-388 | a result names a rule exactly when the evidence breaks it: an attack without alert, an alert after the deadline, an alerted benign case, an unverified execution or observation, or a gap in the evidence |
| ValidationReasons.NoRuleIffPasses | koschei/api/internal/defense/defense_validation_v02.go:320-388 | no rule is named exactly when full evidence shows good conduct, and never more than one |
| ValidationReasons.ConclusionExact | koschei/api/internal/defense/defense_validation_v02.go:320-388 | the outcome is the one of the six that the evidence shows |
| ValidationReasons.TimingExact | koschei/api/internal/defense/defense_validation_v02.go:360-382 | detection is the alert offset of full evidence; lead time is what an attack's alert left until the deadline, negative exactly when the deadline rule is named |
| ValidationReasons.CitationsExact | koschei/api/internal/defense/defense_validation_v02.go:335-358 | cited references and hashes are exactly those of the evidence as far as it goes, trimmed, non-empty, in increasing order |
| ValidationReasons.DetailsExact | koschei/api/internal/defense/defense_validation_v02.go:307-344 | a result describes its scenario case, repeats the execution, and repeats the observation once the execution is verified |
| ValidationReasons.RemarksExact | koschei/api/internal/defense/defense_validation_v02.go:384-388 | each limitation is given exactly when the evidence has that gap |
| ValidationReasons.ControlRulesExact | koschei/api/internal/defense/defense_validation_v02.go:233-303 | a control's entry names a rule exactly when some scenario case breaks it |
| ValidationReasons.ReportExplained | koschei/api/internal/defense/defense_validation_v02.go:168-231 | the report of an accepted input has one entry per control, with one explained result per scenario case and no others |
| ValidationReasons.ReportNamesItsContract | koschei/api/internal/defense/defense_validation_v02.go:168-231 | the report names run, scenario, version, chain, ruleset and digest of the sealed contract, whatever the letter case and white space of the input |
| ValidationExample.InTimeIsValidated | koschei/api/internal/defense/defense_validation_v02.go:168-231 | inputs that are accepted and validated: an alert at any offset up to the deadline, no alert on the benign case |
| ValidationExample.UnalertedIsFailed | koschei/api/internal/defense/defense_validation_v02.go:168-231 | an input that is accepted and failed: the attack was observed without an alert |
| ValidationExample.UnobservedIsIncomplete | koschei/api/internal/defense/defense_validation_v02.go:168-231 | an input that is accepted and incomplete: nothing was observed |
| ValidationTally.Add | koschei/api/internal/defense/defense_validation_v02.go:248-277 | appending a result keeps verdict, rules and counts equal to those of all results |
| ValidationTally.TalliesPermuted | koschei/api/internal/defense/defense_validation_v02.go:300-302 | verdict, rules and counts do not depend on the order of the results |
| ValidationTally.CollectedReport | koschei/api/internal/defense/defense_validation_v02.go:233-303 | results collected for all references and sorted are the control's report |
| ValidationEvaluator.SortUnique | koschei/api/internal/defense/defense_validation_v02.go:633-646 | the distinct non-empty trimmed values in increasing order |
| ValidationEvaluator.ScoreCase | koschei/api/internal/defense/defense_validation_v02.go:320-388 | the step-by-step scoring with early stops computes the reference result |
| ValidationEvaluator.Index | koschei/api/internal/defense/defense_validation_v02.go:174-181 | an index by key, exactly when no key repeats |
| ValidationRun.Normalize | koschei/api/internal/defense/defense_validation_v02.go:543-596 | the normalized input in some order sorted by the keys |
| ValidationRun.ValidateControls | koschei/api/internal/defense/defense_validation_v02.go:424-439 | passes exactly when every control is valid and none repeats |
| ValidationRun.ValidateCases | koschei/api/internal/defense/defense_validation_v02.go:440-501 | passes exactly when every case is valid and bound to its scenario case and control, and no pair repeats |
| ValidationRun.ValidateObservations | koschei/api/internal/defense/defense_validation_v02.go:502-519 | passes exactly when every observation is valid |
| ValidationRun.ValidateInput | koschei/api/internal/defense/defense_validation_v02.go:397-521 | passes exactly on the valid inputs |
| ValidationRun.CheckObservation | koschei/api/internal/defense/defense_validation_v02.go:184-199 | lookup by joined key and comparison of the control accept exactly the observations bound to a case, whatever characters the references contain |
| ValidationRun.IndexObservations | koschei/api/internal/defense/defense_validation_v02.go:182-206 | succeeds exactly on the accepted inputs |
| ValidationRun.LookupExact | koschei/api/internal/defense/defense_validation_v02.go:253-254 | looking an observation up by joined key finds the one for the pair |
| ValidationRun.ScoreExecuted | koschei/api/internal/defense/defense_validation_v02.go:242-277 | the first loop collects the results of the executed cases of the control |
| ValidationRun.AddMissing | koschei/api/internal/defense/defense_validation_v02.go:278-293 | the second loop completes them to all scenario cases |
| ValidationRun.EvaluateControl | koschei/api/internal/defense/defense_validation_v02.go:233-303 | computes the reference report of the control; the guard for a missing kind is never taken |
| ValidationRun.EvaluateControls | koschei/api/internal/defense/defense_validation_v02.go:220-227 | reports on every control and the verdict over them |
| ValidationRun.Evaluate | koschei/api/internal/defense/defense_validation_v02.go:168-231 | succeeds exactly on the accepted inputs, with the report that their evidence determines |
| Adapters.BindScenarioCase | koschei/api/internal/defense/defense_validation_adapters_v02.go:364-382 | the one scenario case of the name, when it agrees with the evidence |
| Adapters.ValidateSemantics | koschei/api/internal/defense/defense_validation_adapters_v02.go:459-500 | whether the control signaled, when the artifacts fit the kind of the case |
| Adapters.AdaptExecutionIntegrityCase | koschei/api/internal/defense/defense_validation_adapters_v02.go:115-222 | the case made from execution evidence, or none |
| Adapters.CountFindings | koschei/api/internal/defense/defense_validation_adapters_v02.go:309-322 | exactly one finding concerns the case and it confirms the binding |
| Adapters.AdaptSecurityEvidenceObservation | koschei/api/internal/defense/defense_validation_adapters_v02.go:259-329 | the observation made from an event, or none |
| Adapters.AdaptedCase | koschei/api/internal/defense/defense_validation_adapters_v02.go:115-222 | an adapted case is verified, belongs to the scenario, and the control signaled exactly on attacks |
| Adapters.AdaptedObservation | koschei/api/internal/defense/defense_validation_adapters_v02.go:259-329 | an adapted observation is verified, covers the window and has the status of the signal |
| Adapters.AdaptedReport | koschei/api/internal/defense/defense_validation_adapters_v02.go:115-329 | in a report on adapted evidence a case is incomplete exactly when execution or observation is absent, else caught in time or late, or clean |
| Adapters.AdaptedNeverMissed | koschei/api/internal/defense/defense_validation_adapters_v02.go:459-500 | no case result of such a report is missed or a false positive |
| Adapters.AdaptedVerdict | koschei/api/internal/defense/defense_validation_adapters_v02.go:115-329 | such a report is failed exactly when an attack was observed with an alert after its deadline, and validated exactly when every case was executed and observed and no alert was late |
| Provenance.ObservationExactly | koschei/api/internal/defense/defense_validation_adapters_v02.go:259-329 | an observation is made exactly when the event is authentic under the collector key of the control, names that collector and the chain and case, covers the window, lists both artifacts, and by exactly one verified finding confirms the binding of this execution; and then that observation |
| Provenance.CaseExactly | koschei/api/internal/defense/defense_validation_adapters_v02.go:115-222 | an execution is made exactly when receipt, proof and actions were recomputed, the only scenario case of the name agrees in kind, time and every matched value observed, the conduct fits the kind, and each hash is that of its own field |
| Provenance.OneFindingExactly | koschei/api/internal/defense/defense_validation_adapters_v02.go:307-324 | one confirming finding: at exactly one place, verified, against the digest |
| ProvenReports.ResultBacked | koschei/api/internal/defense/defense_validation_adapters_v02.go:115-329 | behind every result of an accepted run that is not incomplete stand an attested execution and an event that vouches for it under the key of the control that the report names |
| ProvenReports.OwnIsAdapted | koschei/api/internal/defense/defense_validation_adapters_v02.go:115-329 | a run adapted with its own controls is adapted in the wider sense, so that the results on adapted reports hold for it |
| ValidationService.CheckTrust | koschei/api/internal/handlers/defense_validation_api.go:149-166 | passes exactly when every control names a registered collector with the key registered for it |
| ValidationService.MakeControls | koschei/api/internal/handlers/defense_validation_api.go:192-214 | the controls in order and by reference, exactly when all are valid and no reference repeats |
| ValidationService.AdaptAll | koschei/api/internal/handlers/defense_validation_api.go:216-271 | cases and observations in order, exactly when each case is served with the control it names and all name one chain |
| ValidationService.Serve | koschei/api/internal/handlers/defense_validation_api.go:96-305 | a request is answered exactly when what it amounts to is an accepted input, and with the report on that input |
| ValidationService.ServedIsOwn | koschei/api/internal/handlers/defense_validation_api.go:216-271 | all that the service evaluates is adapted with the controls of the request |
| ValidationService.ResponseBacked | koschei/api/internal/handlers/defense_validation_api.go:80-305 | behind every answered result that is not incomplete stands an event authentic under the key registered for the collector of the reported control |
| ValidationService.ResponseNeverMissed | koschei/api/internal/handlers/defense_validation_api.go:80-305 | no answered result is missed or a false positive |
| AdaptersExample.AdaptedIsAccepted | koschei/api/internal/defense/defense_validation_adapters_v02.go:115-329 | adapted inputs that are accepted, for every alert inside the window: validated up to the deadline, failed after it |
| ServiceExample.RequestAnswered | koschei/api/internal/handlers/defense_validation_api.go:168-305 | a request that is not refused, for every alert inside the window: validated up to the deadline, failed after it |
| Base58.AbsorbIsMultiplyAdd | koschei/api/internal/defense/deployment.go:428-438 | one pass over the digits multiplies their value by 256 and adds the byte |
| Base58.AbsorbByte | koschei/api/internal/defense/deployment.go:428-438 | the two inner loops compute that pass |
| Base58.MultiplyAdd | koschei/api/internal/defense/deployment.go:429-434 | the first inner loop, with a carry that stays within a byte |
| Base58.Encode | koschei/api/internal/defense/deployment.go:423-452 | computes the base-58 text of the big-endian value with one '1' per leading zero byte |
| Base58.RebaseInverse | koschei/api/internal/defense/deployment.go:423-452 | changing base and back is the identity on every digit string |
| Base58.DecodeEncoding | koschei/api/internal/defense/deployment.go:423-452 | decoding inverts encoding on every byte string |
| Base58.EncodeDecoding | koschei/api/internal/defense/deployment.go:423-452 | encoding inverts decoding on every text over the alphabet |
| Base58.EncodingInjective | koschei/api/internal/defense/deployment.go:423-452 | different byte strings have different texts |
| Addresses.TwelveExtraDigits | koschei/api/internal/defense/deployment.go:423-452 | 256^m is at most 58^(m+12) for m up to 32 |
| Addresses.EncodingLength | koschei/api/internal/defense/deployment.go:423-452 | at most 32 bytes encode to at least as many and at most twelve more characters |
| Addresses.KeyEncodesToAddress | koschei/api/internal/defense/runtime.go:13 | every encoded 32-byte key has 32 to 44 characters, all of the address pattern |
| ProgramAccounts.ShiftOrIsLittleEndian | koschei/api/internal/defense/program_authority.go:135-142 | shifting and or-ing the bytes is the standard little-endian decode |
| ProgramAccounts.HeaderParserAgrees | koschei/api/internal/defense/program_authority.go:120-133 | the header parser agrees with the full parser, which alone insists on bytecode |
| ProgramAccounts.InspectionsAgree | koschei/api/internal/defense/program_authority.go:35-118 | the full inspection succeeds exactly where the header one does and the bytecode size is in range, and they agree on every shared field |
| ProgramAccounts.EmptyLegacyProgram | koschei/api/internal/defense/program_authority.go:35-118 | for a program of a legacy loader without bytes the header inspection succeeds and the full one fails |
| ProgramAccounts.AuthorityOpenMeansTagOne | koschei/api/internal/defense/deployment.go:251-269 | an authority is reported exactly when the account's tag says so, and it is a well-formed address |
| ProgramLayouts.LittleEndianExactly | koschei/api/internal/defense/program_authority.go:135-142 | bytes decode to a number exactly when they are the bytes a little-endian writer puts for it |
| ProgramLayouts.ProgramParsedExactly | koschei/api/internal/defense/deployment.go:244-249 | an address is parsed exactly from tag two, a 32-byte key and any rest, and it is the text of that key |
| ProgramLayouts.HeaderParsedExactly | koschei/api/internal/defense/program_authority.go:120-133 | slot and authority are parsed exactly from tag three, the slot, an option tag, 32 bytes and any code |
| ProgramLayouts.DataParsedExactly | koschei/api/internal/defense/deployment.go:251-269 | the full parser reads exactly the same layouts with code behind them, and gives that code |
| ProgramLayouts.DeployedIsInspected | koschei/api/internal/defense/program_authority.go:35-118 | on a chain with a program so laid out, both inspections report its key, slot and authority, and the full one its code, unless that is absent or too long |
| ProgramAccounts.TrimTrailingZeroPadding | koschei/api/internal/defense/deployment.go:271-277 | the data is the trimmed part followed by zeros; the trimmed part is not empty unless the data is, and ends in no zero unless it is one byte |
| ProgramAccounts.TrimmingUnique | koschei/api/internal/defense/deployment.go:271-277 | these promises determine the result |
| Paths.CleanIdempotent | koschei/api/internal/defense/os.go:738-745 | cleaning a cleaned relative path changes nothing |
| Paths.SafePathFixedExactly | koschei/api/internal/defense/os.go:738-745 | a safe path is accepted unchanged again exactly when it has no white space at its ends |
| Paths.SpaceSurvivesCleaning | koschei/api/internal/defense/os.go:738-745 | paths whose cleaned form is not a fixed point |
| Paths.SpaceSurvivesTwice | koschei/api/internal/defense/os.go:738-745 | paths that two cleanings leave with a space in front |
| PathPlaces.SafePathExactly | koschei/api/internal/defense/os.go:738-745 | a path is safe exactly when it is not rooted and the walk along it ends below the root, in no folder .git and at no place beginning with two dots; the result names that place |
| PathPlaces.CleanPlace | koschei/api/internal/defense/os.go:738-745 | cleaning a path that is not rooted leads to the same place |
| PathPlaces.NameLeadsThere | koschei/api/internal/defense/os.go:738-745 | the name of a place leads to that place |
| PathPlaces.SafeStaysInside | koschei/api/internal/defense/os.go:738-745 | a safe path is a name whose walk never leaves the root |
| MaterialText.NormalizedExact | koschei/api/internal/defense/materialization.go:366-374 | normalized text has only line feeds and ends in one; normalizing again changes it exactly when the given text starts with two byte order marks |
| MaterialText.NormalizedByLines | koschei/api/internal/defense/materialization.go:366-374 | every line keeps its content and ends in one line feed, whether it ended in CR LF, LF or CR |
| MaterialText.TwoMarksTwoPasses | koschei/api/internal/defense/materialization.go:366-374 | whatever follows two marks, the second one goes only in a second pass |
| MaterialText.NormalizedValid | koschei/api/internal/defense/materialization.go:366-374 | well-formed UTF-8 stays well formed |
| Materialization.CollectFiles | koschei/api/internal/defense/materialization.go:249-283 | the loop over the sorted paths computes the reference collection |
| Materialization.NormalizeHarnessBundle | koschei/api/internal/defense/materialization.go:236-341 | computes the reference product |
| Materialization.ProductFiles | koschei/api/internal/defense/materialization.go:236-341 | a product holds exactly the cleaned paths and the manifest, with the normalized text of a file given under each |
| Materialization.ProductHashes | koschei/api/internal/defense/materialization.go:295-340 | the product's hashes are those of its own Cargo files and its manifest names profile and source |
| MaterializationCheck.DecodeSourceBundle | koschei/api/internal/defense/os.go:702-721 | succeeds exactly on non-empty bundles of safe paths within the size bound, in any order of the keys |
| MaterializationCheck.IndexFiles | koschei/api/internal/defense/litesvm_execution.go:383-390 | succeeds exactly when all listed paths are fixed points and distinct |
| MaterializationCheck.CompareFiles | koschei/api/internal/defense/litesvm_execution.go:391-398 | succeeds exactly when every file is listed with its size and hash, and adds up the sizes |
| MaterializationCheck.CheckFiles | koschei/api/internal/defense/litesvm_execution.go:380-401 | passes exactly when counts, paths, files and total agree |
| MaterializationCheck.ValidateMaterializedHarness | koschei/api/internal/defense/litesvm_execution.go:360-420 | hands over an accepted bundle, and refuses only when some demand fails |
| MaterializationCheck.RecordedBothWays | koschei/api/internal/defense/litesvm_execution.go:380-398 | as many files as listed and every file listed: the path sets are equal and every listed file is there |
| MaterializationCheck.AcceptedBundleUnique | koschei/api/internal/defense/litesvm_execution.go:376-408 | two bundles accepted for one materialization are equal unless two contents of equal size collide |
| MaterializationCheck.ProducedIsAcceptedExactly | koschei/api/internal/defense/litesvm_execution.go:360-420 | the check accepts a product exactly when its paths are trimmed and its size fits, and then hands over that product and no other |
| MaterializationCheck.StoredIsAcceptedExactly | koschei/api/internal/defense/materialization.go:129-133 | from the stored source on: decoded, produced and checked, a source whose product fits is accepted exactly when no stored path has white space at its ends after two cleanings |
| MaterializationCheck.DecodedStaysInside | koschei/api/internal/defense/os.go:702-745 | a stored source is decoded exactly when its size fits and each path leads to an allowed place below the root, and every decoded file stays inside |
| MaterializationExample.PlainAccepted | koschei/api/internal/defense/litesvm_execution.go:360-420 | with an encoding of manifests that can be read back, the check accepts what the producer makes of three stored files under fixed paths |
| MaterializationExample.SpacedRefused | koschei/api/internal/defense/litesvm_execution.go:383-390 | with one more stored file under a path like `./ ./ a` the source is decoded, the producer makes a product, and the check refuses it |
| Utf8.ValidExactlyEncoded | koschei/api/internal/defense/litesvm_execution.go:666-679 | the byte table accepts exactly the encodings of sequences of scalar values |
| Utf8.RepairExact | koschei/api/internal/defense/litesvm_runner.go:504-506 | repair yields well-formed text, changes exactly the ill-formed, and is idempotent |
| Utf8.RepairByRuns | koschei/api/internal/defense/litesvm_runner.go:504-506 | well-formed text stays, the run of invalid bytes behind it becomes one replacement character, and the rest is repaired likewise |
| Utf8.RepairClipped | koschei/api/internal/defense/litesvm_runner.go:504-506 | a clipped stream repairs to a beginning of the whole repaired stream and at most one replacement character |
| OutputCapture.BoundedExecutionBuffer.constructor | koschei/api/internal/defense/litesvm_runner.go:481-486 | an empty buffer with the bound, or 256 KiB when the bound is out of range |
| OutputCapture.BoundedExecutionBuffer.Write | koschei/api/internal/defense/litesvm_runner.go:488-502 | reports the whole chunk written; the buffer is the stream clipped at the capacity and the flag says whether the stream is longer |
| OutputCapture.BoundedExecutionBuffer.String | koschei/api/internal/defense/litesvm_runner.go:504-506 | the repaired clipped stream |
| OutputCapture.BoundedExecutionBuffer.Truncated | koschei/api/internal/defense/litesvm_runner.go:508 | whether the stream exceeds the capacity |
| OutputCapture.ToValidUtf8 | koschei/api/internal/defense/litesvm_runner.go:504-506 | copies characters and writes one replacement per run of invalid bytes |
| OutputCapture.BoundOutput | koschei/api/internal/defense/litesvm_execution.go:666-679 | the whole repaired text, or its longest well-formed prefix within the bound |
| OutputCapture.CutLosesLittle | koschei/api/internal/defense/litesvm_execution.go:666-679 | a cut text is well formed, within the bound and at most three bytes below it |
| OutputCapture.Capture | koschei/api/internal/defense/litesvm_execution.go:493-496 | the pipeline from chunks to the stored text and flag |
| OutputCapture.StoredOutput | koschei/api/internal/defense/litesvm_execution.go:493-496 | stored text is well formed and bounded; the flag is unset exactly when stream and repair fit, and then the text is the whole repaired stream |
| OutputCapture.StoredUnique | koschei/api/internal/defense/litesvm_execution.go:493-496 | the stored text and flag depend on the bytes of the stream alone, not on its division into chunks |
| OutputCapture.StoredIsBeginning | koschei/api/internal/defense/litesvm_execution.go:493-496 | stored text is always a beginning of the repaired stream and at most one replacement character |
| Followups.ClaimsBounded | koschei/api/internal/agents/followup_worker.go:41-138 | in every run a row is claimed at most 5 times, plus its recoveries, plus 5 per operator retry, and held by at most one worker plus its recoveries |
| Followups.SentIsFinal | koschei/api/internal/agents/followup_worker.go:41-138 | a sent or cancelled row never changes |
| Followups.FiveClaims | koschei/api/internal/agents/followup_worker.go:121-138 | the bound of five is reached |
| Followups.TurnIsTwoEvents | koschei/api/internal/agents/followup_worker.go:52-101 | an uninterrupted worker turn is a claim and a settlement |
| Followups.TurnExactly | koschei/api/internal/agents/followup_worker.go:52-101 | after an uninterrupted turn a row is sent exactly when there was a way to send it and sending succeeded, cancelled exactly without a channel or reply window, failed only without an account or at the fifth claim, and else due later |
| Followups.Table.RecoverStaleFollowups | koschei/api/internal/agents/followup_worker.go:41-50 | every row in processing for over ten minutes goes back to pending, others stay |
| Followups.Table.ClaimFollowup | koschei/api/internal/agents/followup_worker.go:103-119 | takes the first due row that is not locked, or none when nothing is due |
| Followups.Table.ReturnFollowupToPending | koschei/api/internal/agents/followup_worker.go:121-138 | back to pending with back-off, or failed at five attempts, only while processing |
| Followups.Table.DeliverOneFollowup | koschei/api/internal/agents/followup_worker.go:52-101 | one claimed row, settled by channel, account, window and sending result |
| QueueParts.FirstDue | koschei/api/internal/agents/followup_worker.go:103-119 | the due row of the lowest rank among the given ones, or none when none is due |
| QueueParts.BackoffRange | koschei/api/internal/agents/followup_worker.go:130-136 | the delay is 30 seconds up to four attempts, at most 128 up to seven, and never above 256 |
| Alerts.ClaimsBounded | koschei/api/internal/alerts/worker.go:48-252 | in every run a delivery is claimed at most max_attempts times plus its recoveries; outside processing no more workers hold it than its recoveries |
| Alerts.DeliveredFinalExactly | koschei/api/internal/alerts/worker.go:230-252 | a delivered row can still change exactly when some worker holds a snapshot of it |
| Alerts.DeliveredClaimedAgain | koschei/api/internal/alerts/worker.go:230-252 | a run in which a delivered row is claimed again |
| Alerts.RetryAt | koschei/api/internal/alerts/worker.go:254-264 | the delay of the table, its last entry for later attempts |
| Alerts.Table.ClaimDelivery | koschei/api/internal/alerts/worker.go:114-134 | takes the first due row that is not locked, or none when nothing is due |
| Alerts.Table.MarkDelivered | koschei/api/internal/alerts/worker.go:230-235 | the row becomes delivered whatever its status |
| Alerts.Table.MarkFailed | koschei/api/internal/alerts/worker.go:237-252 | retry after the tabled delay below the limit when retryable, else dead letter |
| Alerts.Table.ProcessDelivery | koschei/api/internal/alerts/worker.go:136-176 | the row is settled by the answer; timeouts, 408, 425, 429 and server errors are retryable |
| Alerts.Table.ProcessBatch | koschei/api/internal/alerts/worker.go:98-112 | up to ten rows, each the first due one when those before it were settled; fewer only when nothing is due |
| OperatorNotifications.QueueSafe | koschei/api/internal/agents/operator_notifications.go:47-142 | in every run at most one worker holds a row, attempts and delivery calls stay within 8, and a pending row's attempts are its delivery calls |
| OperatorNotifications.FinalStays | koschei/api/internal/agents/operator_notifications.go:47-142 | delivered, cancelled and failed rows never change |
| OperatorNotifications.ProcessingSettlesExactly | koschei/api/internal/agents/operator_notifications.go:47-142 | a row in processing can still change exactly when a worker holds it |
| OperatorNotifications.AbandonedForever | koschei/api/internal/agents/operator_notifications.go:47-142 | a run from the empty queue after which a row is in processing and no continuation changes it |
| OperatorNotifications.TurnIsRun | koschei/api/internal/agents/operator_notifications.go:47-85 | an uninterrupted worker turn is a run of the step system |
| OperatorNotifications.Table.ClaimOperatorNotification | koschei/api/internal/agents/operator_notifications.go:87-117 | takes the first due row that is not locked, or none when nothing is due |
| OperatorNotifications.Table.RetryOperatorNotification | koschei/api/internal/agents/operator_notifications.go:119-142 | back to pending with back-off, or failed at eight attempts, only while processing |
| OperatorNotifications.Table.DeliverOneOperatorNotification | koschei/api/internal/agents/operator_notifications.go:47-85 | one claimed row, cancelled, refunded, delivered or retried |
| Migrations.MigrationsSafe | koschei/api/internal/db/db.go:194-244 | under any interleaving with crashes every file commits at most once, the version table is exactly the committed files, and success means every file counted and committed |
| Migrations.NothingLeft | koschei/api/internal/db/db.go:194-244 | once every file is committed, no run of any runners commits anything |
| Migrations.NextRunAppliesNone | koschei/api/internal/db/db.go:194-244 | after a runner's success a later runner applies nothing |
| Migrations.LoneRunsFromEmpty | koschei/api/internal/db/db.go:194-244 | runners that never overlap, whatever crashes, always leave a prefix of the sorted list committed |
| Migrations.Database.RunMigrations | koschei/api/internal/db/db.go:194-244 | an uninterrupted run commits the missing files in order up to the first fault that takes effect, and one more when the answer to its commit is lost; it succeeds exactly when there is no such fault; from an empty database a success commits exactly the list |
| MemoryCache.CacheSafe | koschei/api/internal/cache/memory.go:20-57 | under any interleaving the stored map is the last-write map without dropped keys, and a hit returns the value that was latest and unexpired |
| MemoryCache.FreshLossExactly | koschei/api/internal/cache/memory.go:20-34 | a fresh value can be lost without a caller writing its key exactly when a read in progress found an older item of the key that expires earlier |
| MemoryCache.FreshValueLost | koschei/api/internal/cache/memory.go:20-34 | a run in which a fresh value is lost |
| MemoryCache.ReadIsRun | koschei/api/internal/cache/memory.go:20-34 | an uninterrupted read drops a key only when its latest value expired |
| MemoryCache.ReadAfterSet | koschei/api/internal/cache/memory.go:20-48 | a value that was set is what a later read answers, whatever else ran in between without touching the key, until its lifetime is over; then the read misses |
| MemoryCache.Memory.GetJSON | koschei/api/internal/cache/memory.go:20-34 | hit, miss or decoding error by the item found, which is removed exactly when expired |
| MemoryCache.Memory.SetJSON | koschei/api/internal/cache/memory.go:35-48 | the key holds the item, with an expiry when the lifetime is positive |
| MemoryCache.Memory.Delete | koschei/api/internal/cache/memory.go:49-56 | exactly the given keys are removed |
| MemoryArchive.NormalizeMemorySegment | koschei/api/internal/archive/intelligence_memory.go:81-100 | builds the segment character by character |
| MemoryArchive.SegmentExact | koschei/api/internal/archive/intelligence_memory.go:81-100 | normalization yields a segment, changes exactly what is none, and is idempotent |
| MemoryArchive.StrippedExactly | koschei/api/internal/archive/intelligence_memory.go:81-100 | the segment is cut out of the name between ends of dashes, and each character is kept or stands as a dash |
| MemoryArchive.MaterialInjective | koschei/api/internal/archive/intelligence_memory.go:63-66 | the hashed material determines kind, network and target |
| MemoryArchive.NameStartsWithPrefix | koschei/api/internal/archive/intelligence_memory.go:68-79 | every written name is stored unchanged and starts with the prefix that the reader searches |
| MemoryArchive.CollectFileIds | koschei/api/internal/archive/intelligence_memory_read.go:101-106 | the trimmed non-empty identifiers in order |
| MemoryArchive.FindMatch | koschei/api/internal/archive/intelligence_memory_read.go:44-67 | the first file that is not another memory's envelope decides |
| MemoryArchive.GetLatest | koschei/api/internal/archive/intelligence_memory_read.go:19-107 | searches the prefix of the normalized identity and lets the first file that is not another memory's envelope decide |
| MemoryArchive.MatchesExactlyItsIdentity | koschei/api/internal/archive/intelligence_memory_read.go:53-61 | a written envelope is returned for exactly its own identity, unless the hash collides |
| MemorySearch.SearchIsExact | koschei/api/internal/archive/intelligence_memory_read.go:19-107 | in an archive of written files without colliding materials, the prefix search returns the newest file written for exactly the requested tuple, or nothing; it misses that file exactly when ten newer files of others fill the page |
| MemorySearch.FilesDecide | koschei/api/internal/archive/intelligence_memory_read.go:44-67 | reading the listed files gives what looking up by the whole identity among them gives |
| MemorySearch.HitsExactly | koschei/api/internal/archive/intelligence_memory_read.go:70-107 | a page of names found by prefix shows the first file of an identity exactly when fewer than ten newer files of others are found before it |
| MemorySearch.FullPageHides | koschei/api/internal/archive/intelligence_memory_read.go:70-79 | for any file of one memory and ten or more different newer files of another with an alike name, under digests without collision: the request for the first finds nothing |
| MemorySearch.FullPageExample | koschei/api/internal/archive/intelligence_memory_read.go:70-79 | such an archive for kind `a`, network `b-c` and kind `a-b`, network `c`, whatever the target |
| MemoryRedaction.RedactedAlikeExactly | koschei/api/internal/archive/intelligence_memory.go:102-140 | two documents have equal redactions exactly when they agree everywhere outside sensitive names |
| MemoryRedaction.RedactionExact | koschei/api/internal/archive/intelligence_memory.go:102-140 | under a sensitive name at any depth only the marker is left; elsewhere shape and scalars stay and nothing is added |
| MemoryRedaction.SensitiveExactly | koschei/api/internal/archive/intelligence_memory.go:102-140 | a name is sensitive exactly when one of the words stands anywhere in it, in letters of either case |

## Left out

- HTTP handlers other than that of defense validation, the user interface, network clients, RPC transport, process
  launching and sandbox arguments: no logic of their own beyond calls; their answers are parameters of the models.
- The typed structure of a scenario contract, its parts other than the case matrix and its digest: the model takes a
  flag that the complete parsed contract is attached unmutated, and a digest.
- ScenarioFields.CanonicalDecidesExactly: the text fields of the outermost object; sections that several members give
  are merged field by field, which is not modelled. Of the case foldings outside ASCII the two that reach ASCII letters
  are.
- The report hash and the wording of error messages: a failed check is modelled as a failure without its text.
- Triggered rules of a case and of a control are modelled as sets; the service lists them sorted.
- Characters of JSON texts are scalar values; the replacement of ill-formed bytes inside JSON strings is not modelled,
  and keys are ordered by code point, which is the byte order of their UTF-8 form.
- Lower-casing outside ASCII covers only the two characters whose lower case is an ASCII letter; case-insensitive
  comparison is equality of lower-cased texts.
- Adapters.AdaptExecutionIntegrityCase: the recomputation of receipts and proofs and their binding to the actions are
  flags, because these evaluators are separate packages; the hashes of configurations, executions and bindings are
  functions given from outside, and the observed values of matched fields come with the artifacts.
- MaterializationCheck.ValidateMaterializedHarness: the stored artifact is the object that its JSON text denotes, and
  the metadata are plain fields; the command policy inside the manifest is not modelled.
- Followups.ClaimsBounded: the clock is a counter of seconds and any due row may be claimed, which allows more runs than
  the order of the queue does; message texts and the log of sent messages are not modelled.
- The wake-up and back-off of the alert worker between batches: it affects when a batch runs, not what it does.
- Migrations.MigrationsSafe: two runners are kept apart only by the version key; locks taken by the SQL of a migration
  itself are not modelled.
- MemoryArchive.GetLatest: what the search finds and what reading a file gives are functions given from outside, and a
  file is read back as the envelope that was written; both "not found" errors are one answer.
- ValidationRun.ValidateInput: the sections of the scenario contract other than its case matrix are a flag, and the
  recomputed digest is a field.
- ValidationRun.Evaluate: the report hash and the two report flags that never vary are not modelled.
- Adapters.AdaptSecurityEvidenceObservation: an event is in canonical form, and the verification of its digest and
  signature for a producer under a key is a function given from outside.
- ValidationService.Serve: parsing of the scenario contract and decoding of the two actions are given as their results;
  the registry of trusted keys is a map, its reading from the environment is not modelled.
- Materialization.NormalizeHarnessBundle: the pattern checks on the text of the two Cargo files are one function given
  from outside, and the manifest carries no command policy.
- MaterializationCheck.DecodeSourceBundle: the stored text is taken as the object that it denotes; a text that is no
  object of strings is not modelled.
- Resolving a deployment against stored manifests, harness profiles, authority records, lead and tenant administration:
  they would add straight-line checks only.
