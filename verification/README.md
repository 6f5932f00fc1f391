# form-handler, modelled and proved in Dafny

form-handler receives contact-form submissions over HTTP, turns away what it must, and mails the rest.
This project models its stateful and algorithmic parts and proves what they promise over every input and
every run. `dafny verify dfyconfig.toml` checks all of it.

## What is modelled

- **The rate limiter** (`RateLimit`, `RateLimitHistory`, `RateLimitConcurrency`). A class with the map, the
  windows as objects, the sweep as a loop over keys in any order, and a ghost history. Its table is a
  function of that history, about which the bounds are proved; a second model interleaves goroutines step
  by step (wait, lock, read the clock, inspect one key, decide, unlock).
- **The request pipeline and the service** (`Contact`, `Http`, `Handler`, `FormRuns`, `Service`, `Server`,
  `ConcurrentRuns`, `Delivery`).
  What one request brings about is a function of the form and the limiter's table; the handler objects are
  proved to perform exactly that, through a recorder around the response writer. Runs of requests over any
  number of forms are folds of it, which the mux's own loop over requests is proved to carry out; handlers
  running side by side are serializable in lock order.
- **The SMTP adapter** (`LineEndings`, `MailText`, `Smtp`). `compose` with a parser of header lines and body
  that reads it back, and the conversation against an arbitrary server.
- **Client addresses** (`Addresses`, `ClientIp`), **configuration** (`Layers`, `Config`), **Mailgun's
  constructor** (`Mailgun`), **the composition root** (`Adapters`, `Composition`, and `Visitors`, which joins
  the address to the limiter) and **log cleaning** (`Utf8`, `LogSafe`, `LogFragments`).

Text is a sequence of Unicode scalar values, except in `Utf8` and `LogSafe`, where it is bytes. Clock
readings are integers, and every statement about intervals holds for any unit. The spellings of fields,
reasons, header names and answers are an enumeration with a `Text` function (`Wording`).

What the service asks of libraries and of the world comes in as parameters, and every theorem holds for
any value of them unless it says what it needs: the address, template, origin, prefix and number parsers,
lower-casing, the environment, the Q-encoder, the mailer's success, the SMTP server's answers, the clock,
and whether a body decodes. Trimming is spelled out in `Text`; `Config` and `Mailgun`, which only ask
whether a value trims to nothing, hold for any trimming.

## Where the code and its documentation differ

The model follows the code.

- `README.md:86` says a password is required when `SMTP_USERNAME` is set. A forms file is held to that, the
  environment form is not: its login has a password exactly when the variables give one
  (`Config.ResolvedSmtpCanLogIn`, `Config.EnvFormIsDeployable`; an accepted environment without one,
  `Config.LoginWithoutPassword`).
- `README.md:200` says a top-level `mailgun:` block works exactly as `smtp:` does. SMTP defaults that name
  their secret both ways are refused; of the Mailgun layers, exactly the form's own block is held to that,
  and in the defaults the variable wins (`Config.BothPasswordsRefused`, `Config.BothKeysRefusedIffOwn`,
  `Config.BothKeysInDefaultsPass`; an accepted file, `Config.BothKeysInDefaultsAccepted`).
- `internal/clientip/clientip.go:80-84` promises the rightmost entry that is not one of ours. An entry that
  does not parse ends the walk, and the connection's own address is the answer. The promise is kept
  exactly when that entry parses or there is none (`ClientIp.PromiseKeptIffItParses`; a header that breaks
  it, `ClientIp.PromiseFails`).
- `internal/clientip/clientip.go:46-48` accepts a bare address as a trusted host. Written IPv4-mapped, it
  matches nobody (`ClientIp.BareAddressTrustsItself`, `ClientIp.DeadEntries`).
- `internal/mail/smtp/smtp.go:131-133` normalises the body's line endings. The name above the body is
  written as it is, and a lone CR survives: the composed text has a bare LF exactly when the name or the
  address has one (`MailText.BodyIsCleanIffNameIs`; an accepted submission,
  `MailText.AcceptedNameBreaksBody`), and a lone CR exactly when one of the three has one
  (`MailText.BodyKeepsLoneCR`; an accepted submission, `MailText.AcceptedTextKeepsLoneCR`).
- An error from `Send` does not mean the message was not taken
  (`Smtp.TakenYetReportedIff`; a server that does it, `Smtp.DeliveredYetReported`).
- `internal/logsafe/logsafe.go:45-52` calls the first two replacements redundant. They are exactly when no
  break stands between fragments that without it are one loggable character; every well-formed value is
  such, and so are some malformed ones (`LogFragments.BreaksAreRedundantIff`,
  `LogFragments.BreaksAreRedundantWhenWellFormed`, `LogFragments.MalformedNeedNotJoin`; a value that is not,
  `LogFragments.BreaksCanJoinFragments`).

## Model

| member | source | states |
|---|---|---|
| RateLimit.Memory.constructor | internal/ratelimit/memory.go:36-38 | A new limiter has counted nobody. |
| RateLimit.Memory.Allow | internal/ratelimit/memory.go:43-72 | The answer and the table are those of the limiter's whole call history extended by this call; the windows touched are its own. |
| RateLimit.Memory.Count | internal/ratelimit/memory.go:43-72 | The same without the history: off at a limit of zero or less, otherwise sweep, then decide. |
| RateLimit.Memory.Decide | internal/ratelimit/memory.go:60-71 | Opens, refuses or counts in the caller's window and leaves every other caller's entry alone. |
| RateLimit.Memory.SweepExpired | internal/ratelimit/memory.go:54-58 | Whatever order the keys come in, exactly the entries past their end are gone. |
| RateLimitHistory.DecidedByOwnHistory | internal/ratelimit/memory.go:52-71 | Each decision is a function of the caller's own requests and of nothing else. |
| RateLimitHistory.SweepChangesNoDecision | internal/ratelimit/memory.go:52-58 | A limiter that never evicts decides every call the same way. |
| RateLimitHistory.TableKeyIsRecent | internal/ratelimit/memory.go:54-62 | After a call every stored key belongs to a caller admitted within the last period. |
| RateLimitHistory.TableWithinCallers | internal/ratelimit/memory.go:52-58 | The map is never larger than the number of callers admitted in the last period. |
| RateLimitHistory.TableIsBounded | internal/ratelimit/memory.go:52-58 | Nor than the number of admissions in it. |
| RateLimitHistory.WindowIsWithinLimit | internal/ratelimit/memory.go:61-69 | A window's count stays between one and the limit. |
| RateLimitHistory.WindowsAreSpaced | internal/ratelimit/memory.go:61-62 | Windows of one caller open more than a period apart, so their number in an interval is bounded by its length. |
| RateLimitHistory.IntervalBound | internal/ratelimit/memory.go:43-72 | Any closed interval of k periods holds at most (k + 1) times the limit, less one, admissions of a caller; a single instant holds at most the limit. |
| RateLimitHistory.IntervalBoundIsReached | internal/ratelimit/memory.go:54-62 | That bound is exact: some history attains it for every limit and every k that fits the period. |
| RateLimitHistory.CountIsAdmissions | internal/ratelimit/memory.go:62-69 | The counter in a window is the number of submissions admitted since it opened. |
| RateLimitHistory.RefusedIffWindowIsFull | internal/ratelimit/memory.go:66-68 | A call is refused exactly when the caller's window has admitted the limit, and then the caller was admitted that often in the last period. |
| RateLimitHistory.ForgivenAfterPeriod | internal/ratelimit/memory.go:61-65 | More than a period after the last window opened, the caller is admitted. |
| RateLimitHistory.RefusalsLeaveNoTrace | internal/ratelimit/memory.go:66-68 | Deleting any refused calls from a history leaves every caller's window as it was. |
| RateLimitHistory.RefusalsAreFree | internal/ratelimit/memory.go:66-68 | Deleting any refused calls changes none of the remaining decisions. |
| RateLimitConcurrency.FirePreserves | internal/ratelimit/memory.go:43-72 | Every step of every goroutine keeps the invariant: mutual exclusion, the half-swept table between two sequential states, one decision per call. |
| RateLimitConcurrency.Serializable | internal/ratelimit/memory.go:48-71 | Every interleaving gives the decisions and the table of a sequential run in lock order, under a clock that never runs backwards. |
| RateLimitConcurrency.FinishedCallsAreLogged | internal/ratelimit/memory.go:43-71 | A finished call returned the one decision that run holds for it. |
| RateLimitConcurrency.LogOnlyGrows | internal/ratelimit/memory.go:48-71 | Later steps never change the decisions already taken. |
| RateLimitConcurrency.RealTimeOrder | internal/ratelimit/memory.go:48-49 | A call that returned before another was made comes before it in that run. |
| RateLimitConcurrency.HolderCanFinish | internal/ratelimit/memory.go:48-71 | Whoever holds the lock can always finish and release it, moving nobody else. |
| RateLimitConcurrency.WaitingCallsCanFinish | internal/ratelimit/memory.go:48-71 | A waiting call can run to its answer whoever holds the lock, and is then the last call decided. |
| RateLimitConcurrency.EveryCallCanFinish | internal/ratelimit/memory.go:43-72 | Nobody is ever stuck: after any interleaving every call made can still return, with what the sequential run decides. |
| RateLimitConcurrency.ConcurrentIntervalBound | internal/ratelimit/memory.go:43-72 | The interval bound holds for every interleaving. |
| Contact.ReportsFirstBroken | internal/contact/contact.go:135-179 | A submission is accepted exactly when it meets every rule; otherwise the first rule broken, in the stated order, is reported. |
| Contact.RejectionsAreTrue | internal/contact/contact.go:136-172 | What a visitor is told about a field is so, bound by bound, of what is left of it after trimming; a filled honeypot and nothing else is dropped. |
| Contact.FirstBrokenIsUnique | internal/contact/contact.go:144-172 | At most one rule is the first one broken. |
| Contact.AcceptedIsDeliverable | internal/contact/contact.go:135-179 | What is accepted is the trimmed submission, within every bound, with a bare address. |
| Contact.DeliverableIsAccepted | internal/contact/contact.go:135-179 | Every such message is accepted back unchanged. |
| Contact.ValidateIsAFixpoint | internal/contact/contact.go:140-178 | Validating an accepted message again returns it. |
| Text.TrimSpaceIsIdempotent | internal/contact/contact.go:136-142 | Trimming twice is trimming once, and only white space trims to nothing. |
| Text.TrimTakesPadding | internal/clientip/clientip.go:135-139 | Trimming takes away whatever padding stands around a text, and nothing of the text. |
| Text.TrimSpaceIgnoresPadding | internal/contact/contact.go:136-142 | White space around a value changes nothing about what is read. |
| Text.StripBreaksDropsOnlyBreaks | internal/contact/contact.go:181-192 | A line break goes and everything around it stays, in order. |
| Http.Recorder.WriteHeader | internal/server/access.go:24-27 | The recorder holds the status it passes on. |
| Http.Recorder.Write | internal/server/access.go:29-35 | A body without a status counts as 200, for the recorder and the client alike. |
| Http.Recorder.WriteJson | internal/server/server.go:112-116 | One status, one body and the headers set so far reach the client, and the recorder agrees. |
| Handler.CollectOrigins | internal/contact/handler.go:52-57 | The origins allowed are exactly the non-blank configured ones, trimmed. |
| Handler.Handler.ServeHTTP | internal/contact/handler.go:97-150 | Answer, log lines, mail and limiter are exactly what the reaction to the request says. |
| Handler.Handler.Submit | internal/contact/handler.go:133-149 | An allowed POST is counted once and then handled or refused. |
| Handler.Handler.MayGoOn | internal/contact/handler.go:133 | The limiter is asked once, about the client address of this request. |
| Handler.Handler.TurnAway | internal/contact/handler.go:104-131 | Preflights, wrong methods and foreign origins are answered without limiter or mailer. |
| Handler.Handler.Answer | internal/contact/handler.go:174-199 | Every verdict is answered: the closed set of rejections leaves no fall-through. |
| Handler.Handler.Deliver | internal/contact/handler.go:203-227 | Renders the subject, strips line breaks, sends, and answers by the outcome. |
| Handler.Handler.Refuse | internal/contact/handler.go:236-263 | One log line and one answer carrying the same status and reason. |
| FormRuns.TableIsLimiterHistory | internal/contact/handler.go:104-137 | Preflights, wrong methods and refused origins leave the limiter as it was. |
| FormRuns.OneRequest | internal/contact/handler.go:97-150 | Which statuses are possible before, at and behind the limiter, both ways. |
| FormRuns.StatusTable | internal/contact/handler.go:104-227 | Each status is given exactly in its own case: method, origin, limit, decoding, rules, subject, send, success. |
| FormRuns.AnswersAreSpelledOut | internal/contact/handler.go:104-227 | What each status says: its body, its headers beyond CORS and its one log line; a lost message is never called accepted, and only a 422 names a field. |
| FormRuns.MailSaysWhatWasSubmitted | internal/contact/handler.go:82-89 | Nothing is mailed but the name, the address and the text submitted, trimmed, under what the template makes of them. |
| FormRuns.MailIsSafe | internal/contact/handler.go:203-214 | Every message handed to the mailer is a validated one under a subject without line breaks. |
| FormRuns.CorsFollowsOrigins | internal/contact/handler.go:98-102 | A page may read the answer exactly when its origin is allowed, whatever the answer. |
| FormRuns.Conservation | internal/contact/handler.go:104-227 | Over every run the approvals are the malformed, invalid, dropped, unrendered, failed and delivered submissions, and every request is one answer. |
| FormRuns.AttemptsAreAdmitted | internal/contact/handler.go:133-149 | No message is handed to the mailer without an approval of the same caller at the same time. |
| FormRuns.MailIsBounded | internal/contact/handler.go:133-149 | One caller gets at most (k + 1) times the limit, less one, messages sent in k periods. |
| FormRuns.OneKeyOneAllowance | internal/contact/handler.go:133-149 | Any requests counted under one key share that bound. |
| Service.DistinctIdsRoute | internal/server/server.go:67-74 | Distinct ids never collide; a path leads to exactly the form whose endpoint it is. |
| Service.DefaultHasTwoPaths | internal/server/server.go:68-74 | The default form is reached by both of its paths. |
| Service.FormRunsAlone | internal/server/server.go:47-75 | A form's limiter, answers and mail in any run are what it alone would do with its own requests. |
| Service.Isolation | internal/server/server.go:52-55 | Two runs with the same requests for a form leave it the same, whatever else they hold. |
| Service.DeletingOthersKeepsOwn | internal/server/server.go:47-75 | Deleting every other form's requests keeps a form's own. |
| Service.AliasesShareState | internal/server/server.go:68-74 | Swapping the two paths of the default form anywhere in a run changes nothing. |
| Service.HoneypotIsInvisible | internal/contact/handler.go:182-189 | Replacing any delivered submissions of a run by honeypot ones leaves every answer and every limiter unchanged. |
| Service.OneAccount | internal/server/access.go:48-76 | Every request leaves the reason lines it owes, each with the status it was answered with. |
| Service.EveryAnswerIsLoggedOnce | internal/server/access.go:48-76 | Over any run the access lines are one for each request, in order, with its method, its path and the status it was answered with. |
| Service.OtherPathsAreAnswered | internal/server/server.go:77-101 | A path below /contact/ that is no endpoint is answered 404 as an unknown form and logged; /healthz says ok; nothing else is found; no form moves. |
| ConcurrentRuns.HandlersSerialize | internal/contact/handler.go:133-149 | Handlers running side by side answer as one after the other in the limiter's lock order, whatever the interleaving. |
| ConcurrentRuns.FinishedAnswersAreThere | internal/contact/handler.go:133-149 | What a finished handler answers is its answer in that order. |
| ConcurrentRuns.ConcurrentMailIsBounded | internal/contact/handler.go:133-149 | So a caller's allowance holds for handlers side by side. |
| Server.Mux.Delegate | internal/contact/handler.go:20-31 | Serving one form touches no other form's limiter or mailer. |
| Server.Mux.OwnHandler | internal/server/server.go:84-101 | The unknown-form answer is logged with its status; the health check is answered. |
| Server.Mux.Dispatch | internal/server/server.go:67-101 | The mux performs the service's transition. |
| Server.Mux.Account | internal/server/access.go:55-74 | One access line with the status the recorder saw. |
| Server.Mux.ServeHTTP | internal/server/access.go:48-76 | One status header reaches the client, the log grows by the reason lines and one access line with that status, and only the target form's mailer and limiter move. |
| Server.Mux.ServeRun | internal/server/access.go:48-76 | Over any run of requests, the objects' answers, log and limiters are those of the run of the model. |
| LineEndings.ToLFUndoesToCRLF | internal/mail/smtp/smtp.go:133 | CRLF to LF undoes LF to CRLF for every text. |
| LineEndings.ToCRLFUndoesToLF | internal/mail/smtp/smtp.go:133 | The other way round it does so exactly when no LF is bare. |
| LineEndings.NormalisingIsIdempotent | internal/mail/smtp/smtp.go:131-133 | No bare LF is left, twice is once, and nothing but line endings changes. |
| LineEndings.LoneCRSurvives | internal/mail/smtp/smtp.go:133 | A lone CR is left exactly when the input had one. |
| MailText.Compose | internal/mail/smtp/smtp.go:115-138 | Prints the eight headers in order, an empty line and the body. |
| MailText.BodyReadsBack | internal/mail/smtp/smtp.go:128-134 | Reading the body gives back the name, the address and the normalised text, exactly when name and address fit on a line each. |
| MailText.ParseUndoesPrint | internal/mail/smtp/smtp.go:115-138 | Parsing undoes printing for every list of headers a line each can carry (section 2.1 of RFC 5322). |
| MailText.ComposedParsesBack | internal/mail/smtp/smtp.go:112-138 | Whatever the visitor typed, the message parses into exactly the eight headers meant and the body, if and only if the configured addresses hold no CRLF. |
| MailText.ReaderSees | internal/mail/smtp/smtp.go:115-127 | Header by header, by name and by value, what whoever opens the message reads. |
| MailText.ComposedHeadersAreClean | internal/mail/smtp/smtp.go:119-127 | The header block holds no stray CR or LF. |
| MailText.BodyIsCleanIffNameIs | internal/mail/smtp/smtp.go:128-134 | The body is free of bare LF exactly when the name and address written above it are. |
| MailText.AcceptedNameBreaksBody | internal/contact/contact.go:140-178 | A submission that passes every rule and puts a bare LF into the composed text. |
| MailText.BodyKeepsLoneCR | internal/mail/smtp/smtp.go:128-134 | The composed body has a lone CR exactly when the name, the address or the text submitted has one. |
| MailText.AcceptedTextKeepsLoneCR | internal/contact/contact.go:140-178 | A submission that passes every rule and puts a lone CR into the composed text. |
| Smtp.Client.Do | internal/mail/smtp/smtp.go:75-110 | One step is taken, in its turn, and an error names it. |
| Smtp.Secure | internal/mail/smtp/smtp.go:76-89 | STARTTLS where offered, AUTH where configured, in that order. |
| Smtp.Deliver | internal/mail/smtp/smtp.go:75-110 | The rest of the conversation follows its script. |
| Smtp.Open | internal/mail/smtp/smtp.go:55-68 | Dialling, deadline and greeting, each failure under its own name. |
| Smtp.Send | internal/mail/smtp/smtp.go:39-71 | Without an error every step succeeded; with one it names the first that failed and none was taken after it; the connection is closed either way. |
| Smtp.NilIffAllSucceeded | internal/mail/smtp/smtp.go:50-110 | Send returns no error exactly when the server accepts every step. |
| Smtp.ErrorNamesLastStep | internal/mail/smtp/smtp.go:50-110 | An error names the kind of the last step taken, which is the one that failed. |
| Smtp.WrittenTextReads | internal/mail/smtp/smtp.go:102-127 | The text handed to the server reads as the eight headers of the message, from the configured sender to the configured recipient. |
| Smtp.OutcomeIsDetermined | internal/contact/delivery.go:35-41 | The server's answers fix the steps taken and the error. |
| Smtp.ConversationIsLegal | internal/mail/smtp/smtp.go:75-110 | Against every server the steps are in a legal order (section 4.1.4 of RFC 5321): no AUTH or MAIL in the clear where TLS was offered, no DATA without a recipient. |
| Smtp.SenderLogsIn | internal/mail/smtp/smtp.go:76-89 | Against every server a configured sender authenticates before it mails, with its own login and only if it has one; TLS is started exactly when offered; the connection is to the configured server. |
| Smtp.TakenUnlessEarlierFailure | internal/mail/smtp/smtp.go:105-109 | The server has taken the message exactly when there is no error or it is at QUIT. |
| Smtp.TakenYetReportedIff | internal/mail/smtp/smtp.go:105-109 | Said of the server: it takes the message exactly when it accepts every step before QUIT, and a taken message is reported as failed exactly when it then refuses QUIT. |
| Smtp.DeliveredYetReported | internal/mail/smtp/smtp.go:105-109 | A server with which a delivered message is reported as a failure. |
| Smtp.EnvelopeIsConfigured | internal/mail/smtp/smtp.go:91-107 | Sender and recipient are the configured ones, and the message is handed over at most once. |
| Delivery.AnswerFollowsServer | internal/contact/handler.go:214-226 | Behind an SMTP form the visitor is told 202 exactly when the server accepts every step and 502 otherwise, and 502 for a message it has taken exactly when it refuses only QUIT. |
| Delivery.NoHostIsReported | internal/mail/smtp/smtp.go:50-53 | An address without a host is reported as 502. |
| Addresses.ContainsIsInterval | internal/clientip/clientip.go:123-128 | A prefix contains exactly the interval of 2^(w-n) addresses from its masked address. |
| Addresses.MaskingKeepsMembers | internal/clientip/clientip.go:58-66 | Masking a CIDR changes nothing about which addresses it contains. |
| Addresses.MatchesIffNotWrittenMapped | internal/clientip/clientip.go:122-131 | A prefix can match something exactly when it does not lie in the IPv4-mapped block. |
| ClientIp.NewResolver | internal/clientip/clientip.go:49-76 | Succeeds when every entry is sound and then trusts exactly the addresses the entries name; otherwise reports the first bad entry. |
| ClientIp.IsTrusted | internal/clientip/clientip.go:122-131 | Trust is membership of the unmapped address in some prefix. |
| ClientIp.From | internal/clientip/clientip.go:85-120 | The connection's address, or the scan of the header over a trusted connection. |
| ClientIp.HostWithoutPort | internal/clientip/clientip.go:135-145 | The sender over an ordinary connection is the host its address names, without the port. |
| ClientIp.HostAlone | internal/clientip/clientip.go:136-139 | An address that has no port is read as a host. |
| ClientIp.BracketedHost | internal/clientip/clientip.go:136-139 | Brackets around a host are not part of it. |
| ClientIp.UnreadableHost | internal/clientip/clientip.go:139-150 | A host that is no address gives an unknown sender. |
| ClientIp.PortsDoNotMatter | internal/clientip/clientip.go:135-145 | Two ports of one host are one sender, whatever the header. |
| ClientIp.HeaderOfOne | internal/clientip/clientip.go:99-119 | Over a trusted connection a header of one padded, untrusted address gives that address. |
| ClientIp.PaddedHopIsSame | internal/clientip/clientip.go:101-105 | Padding a hop with blanks, wherever it stands, changes nothing. |
| ClientIp.Walk | internal/clientip/clientip.go:99-119 | The right-to-left loop computes the scan. |
| ClientIp.ScanMeetsDescription | internal/clientip/clientip.go:78-84 | The sender is the rightmost untrusted hop with every hop to its right parsed and trusted, and otherwise the connection, both ways. |
| ClientIp.RightmostDecides | internal/clientip/clientip.go:99-120 | The rightmost hop that is not one of ours decides: it is the answer if it parses, and otherwise the connection is. |
| ClientIp.PromiseKeptIffItParses | internal/clientip/clientip.go:80-84 | The documented promise is kept exactly when that hop parses or does not exist. |
| ClientIp.PromiseFails | internal/clientip/clientip.go:104-109 | A header that breaks the promise over every trusted connection. |
| ClientIp.SenderMeetsDescription | internal/clientip/clientip.go:78-120 | The same for the whole request: the header counts only over a connection from a trusted address. |
| ClientIp.PrependingChangesNothing | internal/clientip/clientip.go:99-116 | Once the scan stops inside the header, anything put in front of it changes nothing. |
| ClientIp.OtherwisePrependingDecides | internal/clientip/clientip.go:99-119 | When every hop is trusted, one untrusted address put in front becomes the answer. |
| ClientIp.MappedConnectionIsSame | internal/clientip/clientip.go:135-145 | An IPv4 connection and its IPv4-mapped spelling give the same sender. |
| ClientIp.MappedHopIsSame | internal/clientip/clientip.go:104-130 | So do the two spellings of a hop, wherever it stands in the header. |
| ClientIp.SpellingDoesNotMatter | internal/clientip/clientip.go:114-145 | In general, spellings with the same unmapped addresses, as hops and as the connection, give one key. |
| ClientIp.KeyIsCanonical | internal/clientip/clientip.go:85-120 | The key is never a mapped address, and a trusted one only when it is the connection's own. |
| ClientIp.BareAddressTrustsItself | internal/clientip/clientip.go:68-72 | A bare address trusts exactly itself, and nobody if written IPv4-mapped. |
| ClientIp.DeadEntries | internal/clientip/clientip.go:58-72 | An entry matches nobody exactly when it lies in the IPv4-mapped block. |
| Text.SplitConcat | internal/clientip/clientip.go:101 | Splitting distributes over joining with the separator. |
| Layers.MergeSmtpLayers | internal/config/config.go:292-315 | The loop merges the layers, each over what came before. |
| Layers.MergeMailgunLayers | internal/config/config.go:422-446 | The same for Mailgun. |
| Layers.MergesAreOverlays | internal/config/config.go:292-315 | Both merges are associative, with the empty layer as right identity. |
| Layers.EmptyBelow | internal/config/config.go:292-315 | The empty layer is a left identity exactly for layers that do not name their secret both ways. |
| Layers.MergingInGroups | internal/config/config.go:292-315 | Any number of layers can be merged in groups. |
| Layers.OneSecretForm | internal/config/config.go:303-311 | However many layers, the result never names its secret both ways. |
| Layers.LastNamedWins | internal/config/config.go:250-253 | The last layer with a say in a field decides it, whatever lies below. |
| Layers.SecretIsLastNamed | internal/config/config.go:303-311 | The password comes from the last layer naming one. |
| Layers.KeyIsLastNamed | internal/config/config.go:437-442 | The API key comes from the last layer naming one. |
| Layers.AddressIsLastSet | internal/config/config.go:250-253 | A form that only overrides its login keeps the shared address. |
| Config.ResolveSMTP | internal/config/config.go:254-288 | The server settings, or the first thing wrong with them. |
| Config.ResolvedSmtpCanLogIn | internal/config/config.go:254-288 | A resolved login has a password and a server; refused exactly when a layer names both forms, a variable is unset, or no password is named. |
| Config.SmtpRefusalSaysWhy | internal/config/config.go:254-330 | Which complaint a server that does not resolve gets: a secret named both ways, the variable that is unset, or a login without a password. |
| Config.ResolveMailgunForm | internal/config/config.go:380-418 | The account, or the first thing wrong with it. |
| Config.BothPasswordsRefused | internal/config/config.go:320-329 | A password named both ways is refused in either layer, each under its own reason. |
| Config.BothKeysRefusedIffOwn | internal/config/config.go:380-383 | A key named both ways is refused exactly when the form's own block does it. |
| Config.ResolvedMailgunIsUsable | internal/config/config.go:380-418 | A resolved account is usable and the merged layers'; refused exactly when the form names its key both ways, the variable is unset, domain or key is blank, or the region is unknown. |
| Config.MailgunRefusalSaysWhy | internal/config/config.go:380-418 | The same for an account: the key named both ways, the variable that is unset, then domain, key and region. |
| Config.BothKeysInDefaultsPass | internal/config/config.go:380-383 | Defaults naming the key both ways are read as naming the variable alone. |
| Config.BothKeysInDefaultsAccepted | internal/config/config.go:332-376 | A file whose defaults name the key both ways, accepted by any parsers that take its ordinary values, once the variable is set. |
| Config.ResolvedHasOneProvider | internal/config/config.go:448-490 | A form has exactly one provider, its own or the inherited one, and never an ambiguous one. |
| Config.ProviderRefusedIff | internal/config/config.go:456-481 | A form is refused for its choice of provider exactly when it names both, or neither while the file has both. |
| Config.AcceptedFormsSendAsSaid | internal/config/config.go:448-490 | In an accepted file every setting of a form, of either provider, is the form's own if it sets it, else the file's, else the default. |
| Config.SharedAddressIsKept | internal/config/config.go:250-253 | A form that overrides its login alone keeps the shared address. |
| Config.ValidateFormFields | internal/config/config.go:534-558 | Reports the first thing wrong with a form's own fields. |
| Config.Validate | internal/config/config.go:495-514 | Reports the first form with something wrong. |
| Config.FaultNamesFirstWrongField | internal/config/config.go:519-558 | An error names its form, and a field that is wrong, with every field looked at before it right. |
| Config.FaultSaysWhatIsWrong | internal/config/config.go:519-558 | And says of that field what is wrong with it, the first bad origin included. |
| Config.FormIdsGrow | internal/config/config.go:89 | Which ids are taken, character by character; none can change what a path or a pattern means. |
| Config.ValidIffSound | internal/config/config.go:492-558 | Passes exactly the non-empty lists of sound forms with distinct ids. |
| Config.VerdictIsUnique | internal/config/config.go:495-514 | Only one error can be owed. |
| Config.ParseForms | internal/config/config.go:332-376 | The forms of the file, or the first form that does not resolve, or what validation owes. |
| Config.ReadingIsUnique | internal/config/config.go:332-376 | A file has one reading: the same forms, or the same first thing wrong with it. |
| Config.ParsedIsDeployable | internal/config/config.go:332-376 | An accepted file is sound, with one provider per form and a password for every login; every form keeps what the file says of it, an explicit limit of zero included. |
| Config.FormFromEnv | internal/config/config.go:136-187 | The form the environment describes, or the first thing wrong with it. |
| Config.EnvFormSaysTheVariables | internal/config/config.go:136-183 | Each field of the form is what its own environment variable says, or the default. |
| Config.EnvRefusalNamesTheVariable | internal/config/config.go:152-179 | Which variable a person is told about first, exactly when each. |
| Config.EnvReadingIsUnique | internal/config/config.go:136-187 | An environment has one reading too. |
| Config.KeptAreTrimmed | internal/config/config.go:167-171 | The origins are exactly the non-blank parts of the list, trimmed. |
| Config.EnvFormIsDeployable | internal/config/config.go:136-187 | An accepted environment is sound too; its login has a password exactly when the variables give one. |
| Config.LoginIsNeverChecked | internal/config/config.go:142-147 | Changing the login of an accepted environment never gets it refused. |
| Config.LoginWithoutPassword | internal/config/config.go:136-187 | An environment with a user name and no password, accepted by any parsers that take its ordinary values. |
| Mailgun.New | internal/mail/mailgun/mailgun.go:82-133 | A sender, or everything wrong with the settings at once, or the bad region or API address. |
| Mailgun.CollectProblems | internal/mail/mailgun/mailgun.go:83-99 | All problems, in order. |
| Mailgun.BuiltIff | internal/mail/mailgun/mailgun.go:76-133 | Exactly what settings a sender is built from. |
| Mailgun.BuiltFromSettings | internal/mail/mailgun/mailgun.go:104-132 | A built sender holds the settings and speaks to the override, or else to the EU address exactly when the region says so in any case. |
| Mailgun.ReportNamesWhatIsWrong | internal/mail/mailgun/mailgun.go:83-99 | A report names exactly what is wrong with the settings, each thing once and in their order. |
| Mailgun.RefusalSaysWhy | internal/mail/mailgun/mailgun.go:100-119 | Everything wrong is reported at once, and only then the region or the address of the API. |
| Composition.MailerFor | internal/server/server.go:124-155 | The adapter of the form's provider, with the form's own addresses. |
| Composition.HandlerFor | internal/server/server.go:47-65 | A wired handler with a limiter and a mailer allocated for it, both empty; the mailer sends from the form's From to its To. |
| Composition.New | internal/server/server.go:37-106 | The whole service with nothing shared between forms but the resolver, each handler sending through its own adapter, or the first thing that keeps it from being built. |
| Composition.DeployableComposes | internal/server/server.go:37-106 | A validated configuration is assembled exactly when the trusted proxies and the Mailgun API addresses are in order, and fails for nothing else; its routes never collide. |
| Composition.EndpointsLeadToTheirForms | internal/server/server.go:30-74 | In an assembled service each endpoint leads to its form, with that form's id, origins, hourly limit, From and To, and all ask one resolver that trusts what the configuration names. |
| Composition.FormsAreAsConfigured | internal/server/server.go:118-155 | In whatever is assembled every form sends through its own server and login or its own Mailgun account, under its own subject. |
| Composition.RefusedIffNotOneOfOurs | internal/contact/handler.go:43-57 | An assembled form turns a POST away as foreign exactly when its origin is none of the configured ones; no origin at all is always foreign. |
| Composition.FormLogsIn | internal/server/server.go:142-150 | Whatever a mail server answers, a form logs in with its own user name and password at its own server, and never mails without when it has one. |
| Composition.MailGoesWhereConfigured | internal/server/server.go:27-36 | Whatever a mail server answers, a form's mail goes out under its own From to its own To. |
| Visitors.HeaderBuysNothing | internal/clientip/clientip.go:6-14 | Over one untrusted connection, whatever its requests carry in X-Forwarded-For, a form sends no more than one allowance. |
| Visitors.ProxyHoldsVisitorToOneAllowance | internal/clientip/clientip.go:78-84 | Behind a trusted proxy, whatever a visitor sends in front of what the proxy appends is one allowance. |
| LogSafe.String | internal/logsafe/logsafe.go:40-80 | Filter, cut and mark compute the cleaned value. |
| LogSafe.OutputIsWellFormed | internal/logsafe/logsafe.go:54-80 | For every byte string the output is well-formed UTF-8 (section 4 of RFC 3629). |
| LogSafe.OutputIsSafe | internal/logsafe/logsafe.go:33-62 | No control character, no line break and no replacement character comes out. |
| LogSafe.OutputIsBounded | internal/logsafe/logsafe.go:64-79 | At most Max + 1 characters, exactly so when and only when something was cut, and the front is kept. |
| LogSafe.Idempotent | internal/logsafe/logsafe.go:40-80 | Cleaning a cleaned value changes nothing. |
| LogSafe.UntouchedIff | internal/logsafe/logsafe.go:40-80 | A text is logged as it is exactly when every character is harmless and it is no longer than 200 characters or carries the mark of a cut. |
| LogSafe.OnlyHarmfulGoes | internal/logsafe/logsafe.go:54-62 | A harmful character goes, and what stands around it stays, in order. |
| LogFragments.RemovingBreaksGains | internal/logsafe/logsafe.go:51-62 | Taking line breaks out never loses a character, and gains one exactly where it joins fragments. |
| LogFragments.BreaksAreRedundantIff | internal/logsafe/logsafe.go:45-52 | For every value, dropping line breaks first changes nothing exactly when no break stands between fragments that without it are one loggable character. |
| LogFragments.BreaksAreRedundantWhenWellFormed | internal/logsafe/logsafe.go:45-52 | In particular it changes nothing for well-formed values. |
| LogFragments.MalformedNeedNotJoin | internal/logsafe/logsafe.go:45-52 | Nor for some malformed ones. |
| LogFragments.BreaksCanJoinFragments | internal/logsafe/logsafe.go:45-52 | A value for which it does: a removed break joins two fragments into a character. |
| Utf8.RunesOfBytes | internal/logsafe/logsafe.go:64-79 | Encoding then decoding gives every text back. |
| Utf8.BytesOfRunes | internal/logsafe/logsafe.go:54-66 | Decoding then encoding gives a byte string back exactly when it is well formed. |

## Left out

- Sockets, TLS, dialling, deadlines, HTTP server timeouts, signals and the command line: input and output. A step of the SMTP conversation only succeeds or fails.
- What the SMTP library sends inside one call: EHLO, the AUTH exchange, dot-stuffing, the QUIT after a failed AUTH.
- YAML and JSON decoding and the 64 KiB body cap: a file is already decoded, and a body decodes or not.
- The grammars of net/mail addresses, templates, origins, addresses and prefixes: parameters.
- The Q-encoder and the formatted date: parameters, assumed to keep break-free text break-free where a theorem says so.
- http.ServeMux path cleaning and redirects, among them the one from /contact when no form is called default, and the text of its own 404.
- Mailgun's Send, its message body and its HTTP client: thin.
- Log levels, durations, attributes and formatting: lines are counted with their form, status and cause.
- Repeated X-Forwarded-For lines, of which the code reads the first, and IPv6 zones.
- Load's choice between file and environment, LOG_LEVEL and ADDR: easy cases.
- Interleaving is modelled where goroutines meet, at the limiter's lock; the order of log lines and mail of handlers running side by side is not.
- The connection and the library's SMTP client are one object, closed once where the code defers two closes.
- Registering a form's one or two patterns is one function, and a pattern the mux already holds is an error value where the mux would panic.
- Clock readings and counts are unbounded integers; overflow of time.Time and int is not modelled.
