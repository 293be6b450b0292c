# NEXUS control plane: a verified model

NEXUS is a control plane for proxy servers: it supervises engine processes, keeps a
catalog of edge nodes, meters users and prints subscriptions. The project models the
parts where a mistake shows only over a whole run or only at the reader's end, and
proves what those parts promise.

| files | what they model |
|---|---|
| `Text`, `Names` | strings as the Python code handles them; numbered names and their search |
| `YamlDoc`, `YamlOut` | the document tree of a Clash profile, and the hand-written YAML printer |
| `YamlIn` | an independent reader for the printed subset, written from YAML 1.2.2 |
| `YamlScalars`, `YamlRoundTrip`, `YamlProfile` | what every printed document reads back as, and exactly which documents survive |
| `Codecs` | UTF-8, percent-encoding (RFC 3986, section 2.1) and base64 (RFC 4648, section 4) |
| `Links`, `LinkRoundTrip` | share-link builders, the subscription importer, and the proof that one undoes the other |
| `LinkParts` | what any client reads from a printed link: credential and query |
| `LinkImport` | what the importer makes of links and bodies that were printed elsewhere |
| `Cores`, `CoresSafety` | the supervisor of the two hosted engines, over every run |
| `Ladder` | the Xray supervisor and the ladder of ever smaller configs it tries |
| `Accounts`, `Metering` | user accounts, and charging from a polled counter that starts over with the engine |
| `Throttle` | the login limiter: a pruned, capped map that stands for the full history |
| `NodeCatalog`, `CatalogRuns` | the node table: rebuild, manual publication, probes that write back late |
| `EdgeSources` | source ids, address sampling and what each location publishes |
| `Clash` | proxy names, country groups and references of a Clash profile |

State that the Python code updates in place is a class whose methods are proved equal to
a step function on values; the theorems about runs are lemmas about those step functions.
What the code cannot control (the engines' own checks, crashes, other processes' ports,
probe results, the clock) is a parameter of each step, so every theorem holds for every
behaviour of it.

## What came out

Most promises hold as stated. Where one does not, the exact condition is proved:

- **YAML.** `YamlProfile.RoundTrip` says for every document whether it is read back
  unchanged. The losses: ` #` inside a plain string starts a comment
  (`YamlProfile.HashIsNotQuoted`), although the printer's own check
  looks for it on the wrong side of the hash; `0x10`, `0o7`, `.inf` and `.nan` are printed
  plain and read as numbers; an empty mapping or any list inside a list is printed as a
  quoted string; an empty root collection prints a lone line break, which is a null
  document; a root key or a scalar root starting with `... ` reads as a document end
  marker; Python's `inf` and `nan` read as strings; a key printed longer than 1024
  characters is no implicit key.
- **Import.** The importer keeps one entry per host and port, so the transports of one node
  come back as their first one. A whole subscription imports as the first entry of each
  host and port, and unchanged exactly when no two entries share one
  (`LinkRoundTrip.SubscriptionRoundTrip`, `LinkRoundTrip.OneEndpointImportsOnce`).
- **Supervisor.** One pass over the engines is not enough when the second engine still holds a
  port the first one wants (`CoresSafety.OnePassExactlyWhen`,
  `CoresSafety.OnePassMayFail`); two passes always are.
- **Startup ladder.** The served set is announced before the new process is there. It is served
  exactly when nothing is announced, the live process already runs the accepted config
  unforced, or the new process can be started and survives
  (`Ladder.PublishedBeforeSurvival`, `Ladder.DeadButPublished`).
- **Accounts.** A volume reset does not re-admit an account whose quota a poll saw reached,
  because the poll switched it off; `Accounts.ResetReadmitsExactlyWhen` gives the exact
  condition over every run.
- **Throttle.** The limit holds for checks that are followed at once by their failure. The
  login route waits for the request body in between; then the failures stay spaced
  exactly when none is recorded while the key is full (`Throttle.SpacedExactlyWhen`),
  and the limit is exceeded by at most the attempts waiting at once, less one
  (`Throttle.OvershootIsBounded`), which interleaving reaches
  (`Throttle.InterleavedChecksOvershoot`).
- **Catalog.** A probe that started before an admin parked a node writes the old tag back, and
  the node drops out of the candidate list until the next rebuild
  (`CatalogRuns.ParkedDuringProbe`).
- **Sampling.** A sample is empty exactly when nothing may be sampled or every IPv4 network is
  a single address (`EdgeSources.SinglesSampleToNothing`), so curated lists of single
  addresses offer none.
- **Clash.** A label with outer white space is recorded stripped but printed as it is; the
  country groups resolve exactly when no such label keeps its spelling
  (`Clash.ReferencesResolve`, `Clash.LeadingSpaceDangles`).

## Model

| member | source | states |
|---|---|---|
| YamlProfile.RoundTrip | app/subscriptions/yamlout.py:77-133 | reading what `dump` prints gives the same document back if and only if the document is faithful: unique keys, none lost, no misread string, finite floats, sequence items that are scalars or non-empty mappings, no empty root, no line taken for a document marker; any depth |
| YamlProfile.LoadDump | app/subscriptions/yamlout.py:124-133 | for every printable document, faithful or not, what the independent reader makes of its text, including rejection |
| YamlProfile.LinesRoundTrip | app/subscriptions/yamlout.py:126-133 | the lines joined by line breaks are split back into the same lines |
| YamlProfile.StructureRoundTrip | app/subscriptions/yamlout.py:77-121 | column and text of every printed line are recovered from the text alone |
| YamlProfile.DocLinesRead | app/subscriptions/yamlout.py:124-133 | every printed line starts a node, none is lost, and the block reader consumes all of them |
| YamlProfile.RootMarkers | app/subscriptions/yamlout.py:77-95 | a mapping's lines contain a document marker exactly when a root key is plain and starts with three dots and a space |
| YamlProfile.HashIsNotQuoted | app/subscriptions/yamlout.py:53-56 | the string `a #b` is printed plain and read back as `a` |
| YamlRoundTrip.ReadBlockOf | app/subscriptions/yamlout.py:77-95 | a printed mapping, followed by anything that ends the block, reads as its entries, and the rest is left untouched |
| YamlRoundTrip.ReadEntryOf | app/subscriptions/yamlout.py:79-95 | one key with its value is read from its lines only, whatever less indented lines follow |
| YamlRoundTrip.ReadItemsOf | app/subscriptions/yamlout.py:98-121 | an indentless sequence at the column of its own key reads as its items and stops at the next key |
| YamlRoundTrip.ReadItemOf | app/subscriptions/yamlout.py:100-121 | an item whose first key sits on the dash line reads as the mapping at the dash column plus two |
| YamlScalars.KeyRoundTrip | app/subscriptions/yamlout.py:72-74 | a printed key is recognised as that key exactly when it is not lost: not hidden by a comment, not a number, not too long |
| YamlScalars.LeafRoundTrip | app/subscriptions/yamlout.py:60-69 | every leaf is one line that is neither a dash entry nor a key line, and its value is read back up to the misread spellings |
| YamlScalars.StringSurvives | app/subscriptions/yamlout.py:37-57 | a printed string reads back as itself exactly when it is not a plain one with a comment or a special number spelling |
| YamlScalars.PlainResolution | app/subscriptions/yamlout.py:28-57 | a plain string is never a null, a truth value or a decimal number; only octal, hexadecimal, infinity and not-a-number spellings are left |
| YamlScalars.BareExactlyWhen | app/subscriptions/yamlout.py:37-74 | which keys and strings are printed without quotes, exactly |
| YamlScalars.NumbersAreQuoted | app/subscriptions/yamlout.py:28-34 | whatever Python prints as a number, the named floats in any case, and every decimal are quoted |
| YamlScalars.EscapeLength | app/subscriptions/yamlout.py:66-69 | every character is escaped as briefly as JSON allows |
| YamlScalars.QuotedRoundTrip | app/subscriptions/yamlout.py:66-69 | the double-quoted form is undone by the escapes of YAML 1.2.2, section 5.7, for every string |
| YamlScalars.FloatReads | app/subscriptions/yamlout.py:64-65 | a printed float reads as that float unless it is an infinity or not a number |
| YamlScalars.DecimalIsNumeric | app/subscriptions/yamlout.py:28-34 | every decimal number of the YAML core schema is one that `float` accepts, so it is quoted |
| YamlOut.Printer.Mapping | app/subscriptions/yamlout.py:77-95 | the loop over the shared list appends exactly the lines of the mapping |
| YamlOut.Printer.Sequence | app/subscriptions/yamlout.py:98-121 | likewise for a sequence, dashes at the column of its key |
| YamlOut.Printer.ItemEntries | app/subscriptions/yamlout.py:100-119 | likewise for the keys of one item, the first on the dash line |
| YamlOut.Printer.EntryFrom | app/subscriptions/yamlout.py:79-95 | one key and its value, in either place a key is printed |
| YamlOut.DumpText | app/subscriptions/yamlout.py:124-133 | the text returned is the document's lines, each ended by a line break |
| Codecs.Utf8RoundTrip | app/edge/packs.py:280-285 | decoding undoes encoding for every string |
| Codecs.QuoteRoundTrip | app/subscriptions/generator.py:184-193 | percent-decoding undoes percent-encoding for every string, and the encoded form has only unreserved characters and `%` |
| Codecs.Base64RoundTrip | app/subscriptions/generator.py:841-844 | Python's lenient base64 decoder undoes the encoder for every byte string |
| LinkRoundTrip.UriRoundTrip | app/edge/packs.py:306-345 | a link with a clean user part, host and query is parsed to the same scheme, host, port and label, and to the country the label names |
| LinkRoundTrip.ShareLinkRoundTrip | app/subscriptions/generator.py:184-265 | so is the link of each of the five builders, for every stripped label, port and dotted lower-case host |
| LinkRoundTrip.LinkCarriesCountry | app/subscriptions/generator.py:53-57 | the link of a flagged node names that node's country when it is parsed, if the prefix holds no flag |
| LinkRoundTrip.LabelHasFlag | app/subscriptions/transports.py:597-606 | the label of a flagged node is the prefix, its flag, its name and its tag in that order |
| LinkRoundTrip.CountryFromFlag | app/subscriptions/flags.py:176-183 | the country of a label is that of its first flag, whatever surrounds it |
| LinkRoundTrip.PortRoundTrip | app/edge/packs.py:337-340 | every printed port is parsed to itself |
| LinkRoundTrip.AuthorityReads | app/edge/packs.py:324-334 | host and port are found behind the last `@` whatever the user part contains |
| LinkRoundTrip.PlainBodyRoundTrip | app/edge/packs.py:264-285 | a rendered list of links is decoded to the same links in the same order |
| LinkRoundTrip.Base64BodyRoundTrip | app/edge/packs.py:264-285 | so is its base64 form |
| LinkRoundTrip.EntriesReadAll | app/edge/packs.py:348-359 | from any lines the importer takes, of those that parse and in order, the first of each host and port |
| LinkRoundTrip.FirstOfEachKeys | app/edge/packs.py:350-359 | no host and port is lost |
| LinkRoundTrip.FirstOfEachDiffer | app/edge/packs.py:355-358 | and none is repeated |
| LinkRoundTrip.FirstOfEachIsEarliest | app/edge/packs.py:355-358 | an entry is kept exactly when it is the earliest with its host and port |
| LinkRoundTrip.FirstOfEachIsAll | app/edge/packs.py:348-359 | nothing is dropped exactly when all hosts and ports differ |
| LinkRoundTrip.SubscriptionRoundTrip | app/subscriptions/generator.py:836-844 | a whole subscription, plain or base64, imports as the first printed entry of each host and port, in order with label and country; unchanged if and only if no two entries share a host and port |
| LinkRoundTrip.OneEndpointImportsOnce | app/subscriptions/transports.py:540-557 | two transports printed for one host and port come back as the first alone |
| LinkParts.PartsRoundTrip | app/subscriptions/generator.py:180-265 | from the link of each of the five builders a client reads back the credential and every non-empty parameter, in order |
| LinkParts.TransportIsRead | app/subscriptions/generator.py:184-193 | VLESS and Trojan clients read the transport's own query, every parameter with a value, in order |
| LinkParts.SocketIsRead | app/subscriptions/generator.py:154-168 | for a WebSocket transport each setting is found under its key: security, transport, path, host header and name to ask for with their fallbacks to the server, and the user's client options |
| LinkParts.PluginIsRead | app/subscriptions/generator.py:196-210 | Shadowsocks clients read the plugin, and nothing when there is none |
| LinkParts.AnytlsIsRead | app/subscriptions/generator.py:233-247 | AnyTLS clients read the insecure flag, the name to ask for, or else the host, and the fingerprint, or else `chrome` |
| LinkParts.TuicIsRead | app/subscriptions/generator.py:250-265 | TUIC clients read both spellings of the insecure flag, the name to ask for, or else the host, and the congestion control |
| LinkParts.QueryRoundTrip | app/subscriptions/generator.py:180-181 | form decoding undoes `_params` for every list of names and values, the empty values being dropped |
| LinkParts.CredentialRoundTrip | app/subscriptions/generator.py:187-265 | the user part gives back the credential: plain, percent-encoded, doubled, or method and key |
| LinkParts.UrlSafeRoundTrip | app/subscriptions/generator.py:207 | base64 in the URL alphabet without padding loses nothing: swapping the alphabet back and padding to a multiple of four restores it |
| LinkImport.RawReads | app/edge/packs.py:306-345 | any link by its parts: scheme and host in any case, user part, path and query skipped, the label from the fragment, hosts without a dot and `vmess` refused |
| LinkImport.WhereReads | app/edge/packs.py:328-334 | host and port are told apart for names and for bracketed IPv6 literals, with and without a port |
| LinkImport.PortReads | app/edge/packs.py:337-340 | a decimal port is its value, leading zeros included; no port and one with a letter in it is 443 |
| LinkImport.FlaglessCode | app/subscriptions/flags.py:176-205 | a label without a flag is looked up trimmed and in lower case |
| LinkImport.LoneLetter | app/subscriptions/flags.py:165-173 | a single regional indicator is taken for its letter |
| LinkImport.AnyLineEnds | app/edge/packs.py:285 | a body is split at whatever line ends it has, carriage return and line feed together counting once |
| LinkImport.OneLinkLine | app/edge/packs.py:285 | a line stays, trimmed, exactly when it holds the mark of a link |
| LinkImport.LinkLinesConcat | app/edge/packs.py:285 | lines are judged one by one and stay in order |
| LinkImport.PageIsRefused | app/edge/packs.py:272-276 | an empty body and an HTML page in any case give no lines |
| LinkImport.TrimmedBody | app/edge/packs.py:272 | white space around a body does not matter |
| LinkImport.UrlSafeBody | app/edge/packs.py:277-285 | a base64 body may use the URL alphabet and leave its padding out |
| LinkImport.FoldedBase64 | app/edge/packs.py:282 | line breaks and other foreign characters in base64 are skipped |
| LinkImport.TruncatedBase64 | app/edge/packs.py:280-284 | one digit too many is an error, so the body gives no lines |
| LinkImport.HexDigitIs | app/edge/packs.py:313 | the hexadecimal digits percent-encoding is read with |
| LinkImport.PercentReads | app/edge/packs.py:313 | percent-encoding is read in either case, and a stray percent sign stays |
| Links.EmojiCode | app/subscriptions/flags.py:155-173 | the scan with an early exit returns the letters of the first run of regional indicators, two at most |
| Links.Entries | app/edge/packs.py:348-359 | the loop keeps the first parsable entry of each host and port, in order |
| Cores.Supervisor.StartOrReload | app/cores/service.py:234-275 | processes, hashes, status and report after each of the seven ways a start can end |
| Cores.Supervisor.Stop | app/cores/service.py:213-222 | the process is gone and nothing else changed |
| Cores.Supervisor.Refresh | app/cores/service.py:278-286 | what is published is the recorded profiles of live engines that are reachable |
| Cores.Supervisor.SyncAll | app/cores/service.py:289-302 | one pass takes the engines in order and refreshes at the end |
| Cores.ListListeners | app/cores/service.py:181-196 | the listeners of an engine, in catalog order: enabled, its own, with users, and none without a certificate |
| CoresSafety.RunKeepsHonest | app/cores/service.py:234-302 | over every run of starts, stops, passes, refreshes and deaths, a live process runs the recorded config, and the recorded profiles are that config's |
| CoresSafety.PublishedIsServed | app/cores/service.py:124-140 | after every run from a fresh start, a refresh publishes exactly the reachable profiles in the configs of live processes, and a subscription offers exactly those of them that are switched on; before any refresh, all that are switched on and reachable |
| CoresSafety.RefusedConfigKeepsListener | app/cores/service.py:256-262 | a pass with a refused config leaves that very process alone and keeps publishing what it serves |
| CoresSafety.StartReports | app/cores/service.py:252-275 | a start reports running exactly when the engine is live afterwards, with the profiles of the config it runs, and that is the wanted one unless it was refused |
| CoresSafety.NoErrorServes | app/cores/service.py:236-275 | after a start without an error an installed engine runs exactly what is wanted of it, or nothing when nothing is |
| CoresSafety.ErrorTells | app/cores/service.py:236-275 | disabled, refused, exited and not installed are reported for their cause only, and a refusal is always reported unless the engine already serves |
| CoresSafety.KeptExactlyWhen | app/cores/service.py:237-268 | the same live process is still there after a start if and only if its engine is on, installed and wanted, and the config is refused, or unchanged and not forced |
| CoresSafety.TwoSyncsConverge | app/cores/service.py:289-302 | two passes bring both engines to exactly the wanted configs from every honest state, forced or not, and publish exactly what is wanted and reachable |
| CoresSafety.OnePassExactlyWhen | app/cores/service.py:289-302 | one pass always serves the second engine, and the first if and only if nothing is wanted of it, it already runs that unforced, or the second engine's process holds none of its ports |
| CoresSafety.OnePass | app/cores/service.py:289-302 | a pass keeps the invariant, and serves both engines if the second one held only its own ports |
| CoresSafety.TurnServesExactlyWhen | app/cores/service.py:293-300 | one turn serves its engine if and only if nothing is wanted, nothing changes, or the other engine holds none of its ports |
| CoresSafety.UnwantedTurn | app/cores/service.py:296-300 | an engine nothing is switched on for is ended, and its last error and warning stay |
| CoresSafety.OnePassMayFail | app/cores/profiles.py:45 | a protocol moved from the second engine to the first is dead after one pass |
| CoresSafety.ConvergedIsSteady | app/cores/service.py:252-254 | once both engines serve, an unforced pass replaces no process |
| CoresSafety.TurnServes | app/cores/service.py:293-300 | a turn frees every port its engine should not hold, and serves once the other engine holds no foreign port |
| Ladder.Xray.StartOrReload | app/xray.py:398-435 | process, hash, served set, warning and report after a reload, the rung being the first the engine accepts, and the state an exception at the start leaves |
| Ladder.ListEdgeInbounds | app/xray.py:134-143 | one inbound per profile with a port, WARP last |
| Ladder.RungsDescend | app/xray.py:291-324 | every rung's inbounds are among those of every rung before it, for all profile and cipher lists |
| Ladder.FirstAcceptedIsRichest | app/xray.py:406-411 | the first accepted rung serves all that any accepted rung would, for every acceptance |
| Ladder.RungsKeepTransports | app/xray.py:301-324 | no rung gives up an edge transport other than Shadowsocks and WARP |
| Ladder.ReducedIs | app/xray.py:273-288 | a reduced rung has exactly the edge inbounds without WARP whose profile is not Shadowsocks or belongs to one of the first ciphers |
| Ladder.BareIs | app/xray.py:318-319 | the last full rung has exactly the edge inbounds without WARP |
| Ladder.CipherIsKept | app/xray.py:273-288 | a rung keeps a Shadowsocks profile exactly when the cipher before the last dash of its id is among the first ones |
| Ladder.RungUsers | app/xray.py:57-75 | every rung lets in exactly the active users |
| Ladder.UsersAreCurrent | app/xray.py:423-435 | after every run a reload reported as running leaves a process with exactly the users of the moment, and a process with other users is never kept once a config is accepted |
| Ladder.ReloadReports | app/xray.py:398-435 | a reload raises or reports running for exactly the stated reasons, what it reports as served and dropped is what it announced, and it starts a process exactly when it says so |
| Ladder.UpperRungsAre | app/xray.py:304-315 | what each of the first rungs serves: the advanced transports go first, then WARP and Reality, and Telegram proxies outlast both |
| Ladder.WarpRoutesItsInbound | app/xray.py:236-260 | a WARP inbound's traffic is always routed and a rule never names a missing tunnel; a rung has the rule exactly when a peer is enabled and the rung keeps WARP, and the inbound exactly when the listener also has a port |
| Ladder.NoteTells | app/xray.py:304-324 | the note given with a rung determines the config it serves |
| Ladder.KeptExactlyWhen | app/xray.py:398-430 | the same live process is still there after a reload if and only if the binary is missing, no rung is accepted, or the first accepted one is what it runs and nothing is forced |
| Ladder.RunIsHonest | app/xray.py:385-435 | over every run, the recorded hash of a live process is that of its config |
| Ladder.PublishedIsServed | app/xray.py:412-435 | after every run, a reload reported as running published exactly the live config's tags; with no accepted rung it published nothing and kept the process |
| Ladder.PublishedBeforeSurvival | app/xray.py:419-434 | what a reload published is served if and only if no rung is accepted, the accepted one has no inbounds, it already runs unforced, or its process can be started and survives |
| Ladder.DeadButPublished | app/xray.py:420-434 | a deployment with one profile whose process dies at once keeps it published |
| Ladder.AvailableIs | app/subscriptions/transports.py:387-392 | a profile is offered exactly when it is served or answers to another engine |
| Ladder.OffersAnswer | app/subscriptions/transports.py:365-392 | after every run that ends in a successful reload, each offered profile of the engine has an inbound in the live config |
| Accounts.Registry.Track | app/users/service.py:44-54 | the tracked user's row and the log entry after the call, everyone else's untouched, inactive and unknown users included |
| Accounts.Registry.ResetUser | app/users/service.py:38-43 | the two kinds of reset, and that any other kind changes nothing |
| Accounts.Registry.ToggleUser | app/users/service.py:37 | the switch is turned over and nothing else |
| Accounts.Conservation | app/users/service.py:38-54 | over every run, lifetime usage grows by exactly what was reported while the account was on, and equals current usage plus everything reset; requests likewise |
| Accounts.AllowedExactlyWhen | app/users/service.py:55-62 | whom the decision admits and which reason it gives the others, for missing accounts too |
| Accounts.DenialIsStable | app/users/service.py:55-62 | once denied, an account is denied after any run of tracking and polling, at any later time |
| Accounts.AdmissionIsExact | app/users/service.py:55-62 | after any run of tracking and polling, a connected account is admitted if and only if it is not expired and what was reported in the run still fits both quotas |
| Accounts.FirstConnectionIsFinal | app/users/service.py:48-50 | no run of any operation moves a first-connection time or the expiry it fixed |
| Accounts.ConnectsOnce | app/users/service.py:46-50 | a waiting account connects at its first tracked event while switched on, and expires the agreed days later |
| Accounts.OnExactlyWhen | app/xray.py:458-462 | a run of tracking and polling leaves an active account on if and only if no poll in it has something to charge and finds the quota reached by the volume so far |
| Accounts.ResetReadmitsExactlyWhen | app/users/service.py:38-62 | after any such run a volume reset re-admits a connected account if and only if it is not expired, its quota is positive, requests are left, and no poll reached the quota |
| Accounts.ResetReadmitsOnlyTracked | app/xray.py:461-462 | the same amount that reaches the quota is lifted by a reset when tracked, and not when polled |
| Accounts.SwitchReadmits | app/users/service.py:37-40 | the switch and a reset together, in either order, re-admit an account a poll switched off; neither does alone |
| Metering.Poller.SyncTrafficStats | app/xray.py:450-462 | a poll charges each active, reported user the growth of its counter and stores the new total; all other rows and totals stay |
| Metering.Poller.ChargeRow | app/xray.py:453-462 | one user's charge, and the switch-off when the quota is reached |
| Metering.NeverOverCharged | app/xray.py:453-460 | in every interleaving of traffic, restarts, polls and missed polls, charged plus what the next poll would charge is at most what was carried |
| Metering.LossBetweenPolls | app/xray.py:453-460 | between two polls the bytes carried and not charged are exactly the loss: nothing without a restart, else the traffic before the last restart plus the smaller of the old total and the traffic since |
| Metering.ChargesAreExact | app/xray.py:453-460 | over a whole run the uncharged bytes are the traffic before the first poll plus the losses of the segments |
| Metering.NoRestartNoLoss | app/xray.py:453-460 | without restarts after the first poll every byte after it is charged |
| Metering.PassIsAStep | app/xray.py:450-462 | a pass moves each user's account and stored total by one step: a poll of what is reported when the user is on and reported, and nothing otherwise |
| Metering.PassCharges | app/xray.py:449-460 | a pass with a true report charges the growth of both directions together, an absent one counting as nothing |
| Metering.MeterRuns | app/xray.py:446-460 | over every run with true reports the account's meter counts both directions |
| Metering.BothDirectionsAreCharged | app/xray.py:453-460 | without restarts after the first reporting poll, every byte up or down is charged but for what the next poll will charge |
| Metering.LifetimeIsCharged | app/xray.py:458-460 | over every run an account's lifetime volume grows by exactly what was tracked and what its polls charged |
| Metering.AccountNeverOverCharged | app/xray.py:450-460 | with true reports no account is charged for more than was tracked and carried for it up and down |
| Throttle.LoginThrottle.constructor | app/core/security.py:102-105 | an empty limiter with at least one attempt and a window of at least thirty seconds |
| Throttle.LoginThrottle.Blocked | app/core/security.py:127-129 | the answer is that of the full history since the last reset, for every key no overflow dropped; a dropped key is never blocked wrongly; the key's stored list is pruned and nothing else changes |
| Throttle.LoginThrottle.Fail | app/core/security.py:131-136 | one failure is added to the history and to the pruned list; the rest of the map is what the sweep leaves, and a key is evicted only when more than `MAX_KEYS` keys failed within the window |
| Throttle.LoginThrottle.Reset | app/core/security.py:138-139 | the key's list and history go and nothing else changes |
| Throttle.LoginThrottle.Sweep | app/core/security.py:107-117 | nothing changes under the cap; over it exactly the unexpired keys stay, or the `MAX_KEYS` of them last heard from, and the evicted keys are exactly the unexpired ones that went |
| Throttle.OverflowIsNeeded | app/core/security.py:113-117 | a sweep costs exactly the unexpired keys beyond the cap, and none without them |
| Throttle.UnexpiredIs | app/core/security.py:110-111 | a key survives the sweep of expired ones exactly when it has a failure younger than the window |
| Throttle.LoginThrottle.Prune | app/core/security.py:119-125 | exactly the entries younger than the window are kept, and no empty list |
| Throttle.LoginThrottle.Attempt | app/main.py:482-489 | an attempt that checks first keeps every unevicted key spaced, any `limit + 1` consecutive failures spanning at least a window, and evicts nobody under the cap |
| Throttle.RecentTwice | app/core/security.py:119-121 | pruning now changes no later answer |
| Throttle.OldEntryExpired | app/core/security.py:127-129 | if a key is not blocked, its `limit`-th last failure is at least a window old |
| Throttle.RecordKeepsSpaced | app/core/security.py:127-136 | recording a failure keeps the history spaced if and only if the key is not full at that moment |
| Throttle.SpacedExactlyWhen | app/main.py:482-489 | over every interleaving of checks and records the history stays spaced if and only if no failure is recorded while the key is full |
| Throttle.OvershootIsBounded | app/main.py:482-489 | with at most `most` attempts waiting at once, any window holds at most `limit - 1 + most` failures |
| Throttle.InterleavedChecksOvershoot | app/main.py:482-489 | for every number of attempts that are all checked before their failures are recorded, that bound is reached |
| NodeCatalog.Catalog.Upsert | app/nodes.py:77-98 | a new row is enabled and unmeasured; an existing one keeps switch, latency and creation time |
| NodeCatalog.Catalog.MarkCandidate | app/nodes.py:135-150 | only the tag changes, and nothing at all when it is already as wanted |
| NodeCatalog.Catalog.EnsureOrigin | app/nodes.py:193-212 | the deployment's own node is written when missing or moved |
| NodeCatalog.Catalog.SyncAll | app/nodes.py:265-320 | the rebuild as the composition of origin, disabling, plan and cleanup |
| NodeCatalog.Catalog.CleanupOrphans | app/edge/sources.py:922-933 | exactly the edge rows with a source id outside the plan are removed |
| NodeCatalog.Catalog.Select | app/nodes.py:158-171 | the table after the loop, and the names returned: the existing edge nodes among those given, in order |
| NodeCatalog.Catalog.Mark | app/nodes.py:173-180 | the verdict replaces latency, and metadata when given, of that row only |
| NodeCatalog.Catalog.Candidates | app/nodes.py:152-156 | the disabled nodes that carry the tag, each once, fastest first and unanswering ones last |
| CatalogRuns.SyncIsExact | app/nodes.py:265-320 | every row after a rebuild, row by row, from the row before and its planned item alone |
| CatalogRuns.SyncIsIdempotent | app/nodes.py:265-320 | rebuilding again with the same plan changes nothing but timestamps |
| CatalogRuns.OriginIsKept | app/nodes.py:193-212 | after a rebuild the deployment's own node is untouched, or written as a direct TLS node of this host that is published when new and keeps its switch otherwise |
| CatalogRuns.UnplannedRows | app/nodes.py:288-319 | an edge row outside the plan stays exactly as it is unless the rebuild made it, by its source or a mention of a source id; those are removed with their location or switched off |
| CatalogRuns.OtherRowsStay | app/nodes.py:295-319 | rows of other kinds outside the plan are never touched |
| CatalogRuns.PlannedRows | app/nodes.py:301-311 | a planned row has exactly the planned columns, its known or measured latency, and its old creation time |
| CatalogRuns.CandidatesAreUnpublished | app/nodes.py:310-315 | after a rebuild a planned node is tagged exactly when it is not enabled, and enabled exactly when it was published before or publication is automatic, whatever probes had written |
| CatalogRuns.OnlyHandPicked | app/nodes.py:288-319 | over every run of rebuilds, selections, probes, verdicts and deletions with automatic publication off, an enabled edge node was enabled at the start or picked by hand |
| CatalogRuns.PickSurvives | app/nodes.py:283-312 | a published node stays published over every run that plans it and neither parks nor deletes it |
| CatalogRuns.SelectIsExact | app/nodes.py:158-171 | a selection switches and oppositely tags exactly the edge nodes it names, repeated or padded names included, and touches no other row |
| CatalogRuns.VerdictRow | app/nodes.py:453-464 | a verdict writes its findings over the metadata read before the wait and touches no other column or row |
| CatalogRuns.VerdictKeepsTag | app/nodes.py:453-464 | a verdict never changes the switch, and the tag agrees with it afterwards exactly when the snapshot agreed |
| CatalogRuns.ParkedDuringProbe | app/nodes.py:456-462 | parking during a probe is lost from the candidate list by the verdict, and restored by the next rebuild |
| Text.StripKeeps | app/subscriptions/generator.py:562 | stripping takes white space off both ends of a text and nothing else |
| Names.FirstFree | app/subscriptions/generator.py:567-573 | the search ends within one more step than there are used names, at the first unused one |
| Names.NumberedInjective | app/subscriptions/generator.py:568-571 | different suffixes give different names |
| EdgeSources.Store.SaveSource | app/edge/sources.py:526-539 | ids stay pairwise distinct; a new source overwrites nothing and takes its slug or the slug with a number; an existing one keeps its id; an unknown id is refused |
| EdgeSources.Store.DeleteSource | app/edge/sources.py:542-553 | exactly that id's source and exactly its edge nodes go, ids stay distinct, and an unknown id changes nothing |
| EdgeSources.SavedKeepsDistinct | app/edge/sources.py:533-538 | saving under any id keeps ids distinct and adds exactly that id |
| EdgeSources.PickNet | app/edge/sources.py:253-265 | the loop over one network picks its new candidate addresses in order, stopping at the end of the address space |
| EdgeSources.Sample | app/edge/sources.py:234-266 | the loop over the networks, invalid and IPv6 entries skipped |
| EdgeSources.SampleStaysWithin | app/edge/sources.py:234-266 | at most `limit` different addresses, each inside an input network and, with four addresses or more, strictly between its first and last |
| EdgeSources.SampleCounts | app/edge/sources.py:244-266 | disjoint networks yield exactly the smaller of the limit and the sum of what each can give |
| EdgeSources.OffersAreInside | app/edge/sources.py:253-262 | one network offers one address per step, all inside |
| EdgeSources.OffersAreDistinct | app/edge/sources.py:255-265 | and all different |
| EdgeSources.OffersSpread | app/edge/sources.py:253-258 | the addresses of a network start behind its network address and go on in equal steps as wide as fit |
| EdgeSources.SampleOfClassC | app/edge/sources.py:234-266 | the four addresses sampled from a network of 256 |
| EdgeSources.StrideFits | app/edge/sources.py:253-258 | the integer-division stride never leaves the network |
| EdgeSources.SinglesSampleToNothing | app/edge/sources.py:281-283 | a sample is empty if and only if nothing may be sampled or every IPv4 network is a single address |
| EdgeSources.OrderedIps | app/edge/sources.py:556-595 | the most preferred addresses of typed, measured and sampled ones without repeats, although ranges are sampled only when the others do not suffice |
| EdgeSources.PublishedIs | app/edge/sources.py:556-595 | at most `max` different addresses, typed ones first, all others within the ranges, or from the pool without ranges |
| EdgeSources.FilteredIs | app/edge/sources.py:577-604 | the pool is narrowed to exactly its IPv4 addresses between the first and last of a range |
| EdgeSources.PublishedInOrder | app/edge/sources.py:572-595 | no usable address is passed over while there is room: typed ones come before measured ones, these in pool order, samples last |
| EdgeSources.RangesFill | app/edge/sources.py:583-595 | disjoint ranges fill a location as far as they reach |
| EdgeSources.OwnAddresses | app/edge/sources.py:572-595 | locations with disjoint ranges and no typed addresses publish no address in common |
| Clash.ListProxies | app/subscriptions/generator.py:559-575 | one proxy per pair with a non-blank label, in order, names pairwise distinct, first occurrences unchanged, later ones numbered by the first free number |
| Clash.KeptIs | app/subscriptions/generator.py:562-564 | a pair is left out exactly when its label is all white space |
| Clash.GroupMembers | app/subscriptions/generator.py:578-583 | the country groups in order of first appearance, each with exactly its members in order |
| Clash.ClashDocument | app/subscriptions/generator.py:547-609 | the document built from both, and none exactly when no pair has a label |
| Clash.GroupsPartition | app/subscriptions/generator.py:578-583 | every name is listed once, in its own node's group and in no other |
| Clash.ProfileIntegrity | app/subscriptions/generator.py:559-602 | with stripped labels a built document has one proxy per pair in order, distinct names, first occurrences unchanged, and no dangling reference |
| Clash.AlignedIsClosed | app/subscriptions/generator.py:595-602 | every name any group lists is a proxy, a group or DIRECT, if the labels that keep their spelling are stripped |
| Clash.EveryProxyIsReachable | app/subscriptions/generator.py:578-602 | with such labels every pair's proxy is in the automatic group and in its own country's group, and the top group lists both |
| Clash.ReferencesResolve | app/subscriptions/generator.py:562-575 | country references resolve to proxies if and only if those labels are stripped |
| Clash.MisalignedDangles | app/subscriptions/generator.py:562-575 | otherwise the country group of that very pair lists a name no proxy has |
| Clash.LeadingSpaceDangles | app/subscriptions/generator.py:562-575 | one label with a leading space gives a document whose group lists a name found nowhere |

## Left out

- YAML reader: anchors, tags, directives, document markers, multi-line and single-quoted scalars, explicit keys and non-empty flow collections are not read; the printer never writes them.
- YAML documents: non-string keys and the numeric value of floats; a float is its spelling, and Python's `str` of a collection inside a list is a parameter.
- Case folding and white space beyond ASCII in `lower`, `strip`, `isdigit`, `float` and `int`.
- Links.Entries: `vmess` entries (a base64 JSON blob) are skipped, where the source imports their host and port.
- Links.ParseLink: likewise, and the country names and aliases of a label without a flag are a parameter.
- Hysteria2 links: the same shape as the trojan link with its own credentials.
- Codecs.Decode: every byte of a malformed sequence becomes one replacement character, where Python replaces a longest well-formed prefix at once; well-formed text is not concerned.
- LinkRoundTrip.ShareLinkRoundTrip: VLESS prints the credential unquoted, so it must be free of delimiters there; IPv6 hosts are printed without brackets and do not come back, so hosts are dotted names and IPv4 addresses.
- Reality and advanced transports: any list of names and values stands for their query; that of the WebSocket transports is modelled.
- Cores.Supervisor.SyncAll: one pass is one step; two passes never interleave, and deaths fall between steps or at a start.
- Cores: a process is its number, the config it was started with, and whether it is live; the SHA-256 digest of a config is the config itself, error texts are cases, and a port of a live process cannot be bound again.
- Ladder.Xray.StartOrReload: of a config only the inbounds, the WARP outbound and rule and the users are kept, an inbound has no contents beyond its tag and port, and the texts of notes and errors are cases.
- Cores.Supervisor.StartOrReload: an exception raised while a process is started is not modelled.
- Accounts: usage is counted in bytes instead of fractions of a gigabyte, and the clock is positive; creation and scheduled resets are not modelled.
- Metering: a statistics query that fails is a missed poll.
- Throttle: time is a real number that never runs backwards; which of several equally silent keys an overflow drops is arbitrary, where Python takes the first stored.
- NodeCatalog.Catalog.Candidates: nodes of equal speed, and those that do not answer, stand in any order, where the query sorts them further by latency and name.
- Clash.ClashDocument: only proxy names and groups are modelled; the routing rules, DNS and other fixed sections are not.
- NodeCatalog: metadata is the candidate tag, the source id and a map of everything else; a rebuild is one step; adding, editing and renaming nodes by hand are not steps of a run.
- EdgeSources.Store.SaveSource: the slug and the validation of the other fields are not modelled; the slug asked for is an input.
- EdgeSources: parsing of networks and addresses; a network is its first address and size, and the measured pool is an input in the order the query returns it.
- Planned node names: taken as distinct; the naming scheme does not guarantee it across sources.
- Geo lookups, country relabelling, latency measurement, certificates, keys and secrets.
- The second YAML writer of `app/cores/engines.py` and the supervisor of `app/telegram/mtproto.py`, which repeat the patterns modelled here.
- HTTP routes, templates, WebSocket bridging, workers, SQL, files and subprocesses.
