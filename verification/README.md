# pispot: a Dafny model

pispot turns a Raspberry Pi into a Wi-Fi hotspot with a dashboard. This project models the parts of it
where something can go wrong between functions, between callers, or between one run and the next, and
proves what they keep. `dafny verify dfyconfig.toml` checks everything.

| files | what they model |
|---|---|
| `Text`, `GoQuote`, `Words`, `WordLaws`, `Wrappers` | Go text: `bufio.Scanner` with its token limit, `strings`, `strconv.Quote` and its decoder, words, decimal numbers printed and parsed |
| `WifiConfig`, `WifiLaws`, `WifiFile`, `WifiStore`, `WifiRuns`, `WifiCases` | the wpa_supplicant file: reader, printer, what any file reads as, the class `Store` with `List`, `Add`, `Remove`, and whole runs of them |
| `TtlProtocol` | the refresh protocol of the three collectors, as a step system over any number of callers |
| `HotspotText`, `HotspotLaws`, `HotspotCollector`, `WanCollector`, `AdminCollector` | the collectors themselves: parsing, the layout of the lease file and of a station block, joining, sorting in place, publishing, last-good data |
| `HelperAuth`, `AuthCache`, `ApiGates`, `AuthRuns` | group resolution, the helper's verdict, the expiring cache, the admin gates, and their interleaving |
| `Netstats`, `NetstatsLaws` | the throughput sampler, the layout of its input and what a tick publishes |
| `PyText`, `Regex`, `WizardFiles`, `WizardLaws`, `WizardUser`, `WizardEnv`, `WizardRecovery`, `Wizard`, `WizardPrompts`, `WizardHand`, `WizardHandWan`, `WizardHandEnv`, `WizardRuns`, `WizardHistory` | the setup wizard: a backtracking matcher for the expressions it uses, printers, readers, files edited by hand, prompts and what is typed at them, reruns, and histories of runs |

Code that changes state is written as methods and classes whose `ensures` equate the new state with a
function of the old one; the theorems are lemmas about those functions. Every reader has a law of its own
that does not speak through it: the input is laid out from words and numbers, and the law says which of
them come back and in which field.

## Where the code does less than its comments say

Each of these is an exact law, with a concrete input that shows the failure.

- The network file is printed with `%q` and read with an `unquote` that does not undo escapes. Reading
  what was printed escapes every value (`WifiLaws.PrintParse`), so the duplicate test of `Add` and the
  lookup of `Remove` work exactly for names without a character that `%q` rewrites (`WifiRuns.SecondAdd`,
  `WifiRuns.AddThenRemove`, `WifiCases.MarkedNameEscapesChecks`).
- `Add` bounds the password but not the name. A name whose printed line reaches 64 KB is stored, and from
  then on every operation fails (`WifiRuns.OversizeNameBlocksTheStore`, `WifiCases.LongNameBlocksList`);
  names up to 16380 bytes are safe (`WifiCases.ShortNamesFit`).
- The header of that file survives a rewrite exactly when no line of it ends in a carriage return beyond
  the one that line splitting removes (`WifiLaws.HeaderFixpoint`, `WifiCases.CarriageReturnLost`).
- The wizard promises that Enter keeps the current value. Answers end at a newline, but `load_env` splits
  `dashboard/.env` with `splitlines()`, which also breaks at form feeds, U+2028 and the like, so an answer
  can hold lines of its own, and these can bind keys. Enter keeps everything exactly when the values that
  only `group_vars/all.yml` holds have no quotation mark, no such line changes what is read for the host,
  the certificate name or the title, the user is one word, and the host does not itself contain
  `ansible_user=` followed by another name (`WizardRuns.Keeps`, `WizardRuns.EnterFixpoint`). Concrete
  failures: `WizardEnv.BrokenHostLost`, `WizardEnv.TitleRenamesHost`, `WizardUser.HostStealsUser`.

## Model

| member | source | states |
|---|---|---|
| `WifiConfig.Parse` | host/internal/wifi/config.go:125-171 | the reader's loop over its five variables computes the fold that all laws below are about, including the newline rule of the header and the scanner's failure |
| `WifiConfig.Render` | host/internal/wifi/config.go:173-181 | the builder loop prints the header and, for each network in order, the five lines of its block |
| `WifiLaws.PrintParse` | host/internal/wifi/config.go:125-200 | for every valid header and all networks with nonempty names and arbitrary characters, reading the printed text gives the same networks in the same order with each value escaped, up to the first value line too long for the scanner, which is the only failure |
| `WifiFile.FileLaw` | host/internal/wifi/config.go:125-171 | any file, divided into a header and blocks, reads as one network for each closed block with a name, in order; each value is the last its block sets, other keys and lines between blocks change nothing, and the header lines are kept |
| `WifiFile.EveryFileDivides` | host/internal/wifi/config.go:132-166 | every list of lines divides in that way, so the law is about every file |
| `WifiFile.BlockReads` | host/internal/wifi/config.go:158-164 | in a block with any other lines, in any order, the last `ssid=` line and the last `psk=` line give the name and the password |
| `WifiFile.QuotedReads` | host/internal/wifi/config.go:193-199 | a value in quotation marks reads as what stands between the outer two, even if that holds quotation marks, and white space around them is dropped |
| `WifiFile.BareReads` | host/internal/wifi/config.go:193-199 | any other value that is not blank reads as itself without the white space around it |
| `GoQuote.QuoteReads` | host/internal/wifi/config.go:178-179 | decoded as a Go string literal, what `%q` prints between its quotation marks is the original text, for every text and every table of printable characters |
| `WifiLaws.ParsedOk` | host/internal/wifi/config.go:125-171 | whatever the file holds, the reader returns a valid header and only named networks, so the law applies to all that is ever printed |
| `WifiLaws.IdentityIffPlain` | host/internal/wifi/config.go:173-199 | printing and reading is the identity on a list exactly when no value has a character that quoting rewrites; otherwise the total length of the values strictly grows |
| `WifiLaws.HeaderFixpoint` | host/internal/wifi/config.go:166-175 | with a network printed, the header comes back byte for byte exactly when none of its lines ends in a carriage return |
| `WifiLaws.HeaderAlone` | host/internal/wifi/config.go:166-175 | with no network printed, such a header loses exactly one trailing newline if it ends in an empty line, and nothing otherwise |
| `WifiStore.Store.List` | host/internal/wifi/config.go:23-30 | the listing is what the file shows, cut short with the error when the scanner gives up, and nothing changes |
| `WifiStore.Store.Add` | host/internal/wifi/config.go:34-60 | the checks in order, the duplicate search, then temporary file and rename; a refused or failed call leaves the file as it was |
| `WifiStore.Store.Remove` | host/internal/wifi/config.go:63-86 | every network of that name goes, the others keep their order, and a name that is not there is refused |
| `WifiStore.Store.Write` | host/internal/wifi/config.go:173-191 | what is left in the file and in its temporary companion after each way the two steps can fail |
| `WifiStore.WithoutInPlace` | host/internal/wifi/config.go:72-80 | wherever a network stands, removal drops it or leaves it there by its name, so the others keep their order and number |
| `WifiStore.AddProblemExact` | host/internal/wifi/config.go:34-43 | a name or a password of white space only is refused, and a password is accepted exactly from 8 to 63 bytes |
| `WifiRuns.ExecRefines` | host/internal/wifi/config.go:23-86 | one call with plain arguments, under any I/O failure, replies and changes the file as the same call on an insertion-ordered map does |
| `WifiRuns.RunRefines` | host/internal/wifi/config.go:23-86 | so does every serial run of List, Add and Remove: same replies, and the bytes show exactly the final map, whose names stay distinct and in order |
| `WifiRuns.AddedPasswordLength` | host/internal/wifi/config.go:41-43 | after any such run every listed network was there before or has a password of 8 to 63 bytes |
| `WifiRuns.RunKeepsHeader` | host/internal/wifi/config.go:133-175 | a run that keeps the list nonempty preserves the header byte for byte |
| `WifiRuns.CanonicalMeans` | host/internal/wifi/config.go:125-191 | a file that a rewrite leaves alone holds plain networks only, and a header that survives |
| `WifiRuns.AddThenRemove` | host/internal/wifi/config.go:34-86 | on such a file Add then Remove restores every byte exactly when the name is plain and fits; otherwise Remove is refused |
| `WifiRuns.SecondAdd` | host/internal/wifi/config.go:32-56 | a second Add of a name is refused as a duplicate exactly when the name is plain |
| `WifiRuns.AddOnAnyFile` | host/internal/wifi/config.go:32-59 | on every readable file whose networks fit, canonical or not, an Add leaves the old list and the new network with every value escaped, and a second Add of the name is refused exactly when some listed name reads back as it |
| `WifiRuns.OversizeNameBlocksTheStore` | host/internal/wifi/config.go:23-86 | on every readable file, after adding a name that does not fit the scanner every valid call fails in the parser, List with the networks in front of that name, and the bytes no longer change |
| `WifiRuns.RunShown` | host/internal/wifi/config.go:23-86 | every serial run on every file, with any arguments and any I/O failures, gives the replies and the list of a specification without text, in which each write escapes all values once more and cuts the list at the first network that does not fit |
| `WifiCases.ShortNamesFit` | host/internal/wifi/config.go:133-134 | names and passwords up to 16380 bytes fit after quoting, whatever characters they have |
| `WifiCases.MarkedNameEscapesChecks` | host/internal/wifi/config.go:52-83 | the name a"b can be added twice to an empty file and cannot be removed |
| `WifiCases.LongNameBlocksList` | host/internal/wifi/config.go:23-30 | one name of 65536 letters, added to an empty file, makes List give an error and no network |
| `WifiCases.CarriageReturnLost` | host/internal/wifi/config.go:166-175 | a concrete header that a rewrite changes |
| `TtlProtocol.RefreshRate` | dashboard/internal/hotspot/collector.go:89-178 | in every interleaving of any number of callers two refreshes are at least ttl apart, and a window of length w holds at most floor(w/ttl)+1 |
| `TtlProtocol.Freshness` | dashboard/internal/hotspot/collector.go:89-109 | a call whose first clock reading is t returns a snapshot taken after t - ttl, although it loads the pointer without the lock |
| `TtlProtocol.NeverGoesBack` | dashboard/internal/wan/collector.go:99-199 | published times never decrease, and neither do the times that successive loads see across callers |
| `TtlProtocol.OneRefreshAtATime` | dashboard/internal/admin/eth.go:108-174 | at most one refresh is sampling |
| `TtlProtocol.ConcurrentIsSequential` | dashboard/internal/hotspot/collector.go:101-178 | the bodies any interleaving publishes are those of a sequential run over its samplings, and every caller gets one of them |
| `TtlProtocol.NeverTheInitial` | dashboard/internal/hotspot/collector.go:74-99 | in every interleaving, with a clock at least ttl past the zero time, every returned snapshot was published by a refresh: the one the constructor stored is never handed out, so the first call samples |
| `TtlProtocol.AloneIsSole` | dashboard/internal/hotspot/collector.go:89-109 | a call that nothing interferes with refreshes exactly when both its clock readings find the data ttl old, and returns the snapshot current at its end |
| `HotspotText.ParseStationDump` | dashboard/internal/hotspot/clients.go:33-89 | the loop with its pending record computes the fold that the laws below are about |
| `HotspotText.StationLineHasMac` | dashboard/internal/hotspot/clients.go:57-63 | a trimmed line that starts with "Station " always has a second word |
| `HotspotText.StationsAppend` | dashboard/internal/hotspot/clients.go:33-89 | parsing is a homomorphism over station blocks: nothing before a Station line influences what follows it |
| `HotspotText.OneClientPerStation` | dashboard/internal/hotspot/clients.go:39-65 | one client per Station line, none lost and none invented |
| `HotspotText.StationBlock` | dashboard/internal/hotspot/clients.go:71-85 | each field of a block is the value of the last line with its key |
| `HotspotLaws.BlockReads` | dashboard/internal/hotspot/clients.go:53-121 | a block laid out from a MAC and key lines, in any order and with any other keys, gives one client with that MAC in lower case and, for each of the four keys, the number that the first word of its last value stands for |
| `HotspotLaws.NumbersRead` | dashboard/internal/hotspot/clients.go:71-121 | a block with four numbers printed in decimal, the signal with its sign, gives exactly these four numbers, each in its own field |
| `HotspotLaws.UintReads` | dashboard/internal/hotspot/clients.go:99-109 | a printed natural reads as itself if it fits 64 bits and as 0 otherwise, whatever unit follows it |
| `HotspotLaws.IntReads` | dashboard/internal/hotspot/clients.go:111-121 | a printed integer reads as itself, sign included, if it fits 64 bits and as 0 otherwise |
| `HotspotLaws.DumpReads` | dashboard/internal/hotspot/clients.go:46-52 | a dump is read line by line up to the first line of 1048576 bytes, and carriage returns do not matter |
| `HotspotText.ParseLeases` | dashboard/internal/hotspot/leases.go:17-38 | the map holds a MAC exactly when a valid line names it, with what the last such line says |
| `HotspotLaws.LeaseWritten` | dashboard/internal/hotspot/leases.go:17-38 | a line laid out from an expiry, a MAC, an address, a name and any rest binds that MAC in lower case to exactly that address and that name, with no name for `*`, over whatever stood above it, and changes no other MAC |
| `HotspotLaws.RowReads` | dashboard/internal/hotspot/leases.go:21-35 | so does the line by itself, with any white space between the words |
| `HotspotLaws.LeaseSkipped` | dashboard/internal/hotspot/leases.go:22-28 | comments and lines of fewer than four words change nothing |
| `HotspotLaws.LeaseCut` | dashboard/internal/hotspot/leases.go:19-20 | from the first line of 65536 bytes on nothing is read |
| `HotspotCollector.SortByMac` | dashboard/internal/hotspot/collector.go:160-162 | the slice is sorted by MAC in place and is a permutation of what it was |
| `HotspotCollector.LessIs` | dashboard/internal/hotspot/collector.go:160-162 | the order of the sort is that of the first difference, a prefix coming first |
| `HotspotCollector.JoinInPlace` | dashboard/internal/hotspot/collector.go:150-158 | each client in the slice gets the lease of its MAC, in place |
| `HotspotCollector.CollectClients` | dashboard/internal/hotspot/collector.go:147-162 | parse, join and sort give a sorted permutation of the joined stations |
| `HotspotCollector.Collector.Refresh` | dashboard/internal/hotspot/collector.go:101-178 | the new snapshot is one the observation allows, and no snapshot published earlier changes on the heap, though slices are shared after a failure and edited in place after a success |
| `HotspotCollector.Collector.Latest` | dashboard/internal/hotspot/collector.go:89-99 | a stale call publishes and returns a snapshot that its own observation allows; any other call returns the current snapshot and changes nothing |
| `HotspotCollector.HotspotRuns` | dashboard/internal/hotspot/collector.go:110-177 | in every interleaving the k-th published snapshot shows exactly the stations of the latest dump that worked, sorted and joined with that sampling's leases |
| `HotspotCollector.CallersGetPublished` | dashboard/internal/hotspot/collector.go:89-99 | what any call returns is one of those snapshots |
| `HotspotCollector.ClientsJoined` | dashboard/internal/hotspot/collector.go:147-167 | a shown list has one client per Station line, each a parsed station with the address and name of the last valid lease line for its MAC, both empty when there is none |
| `WanCollector.Collector.Refresh` | dashboard/internal/wan/collector.go:110-199 | the three-stage sampling with its failures publishes what the specification of a step says |
| `WanCollector.WanRuns` | dashboard/internal/wan/collector.go:110-199 | in every interleaving the Info of the k-th snapshot is that of the latest refresh that succeeded or found the interface absent; connected implies present, and not connected implies no name, address or gateway |
| `AdminCollector.Collector.Refresh` | dashboard/internal/admin/eth.go:108-174 | the refresh with its partial reuse publishes what the specification of a step says |
| `AdminCollector.AdminRuns` | dashboard/internal/admin/eth.go:108-174 | in every interleaving the addresses are those of the latest refresh that could look them up, while link state and error are those of the refresh itself |
| `HelperAuth.Resolve` | host/internal/groups/lookup.go:19-52 | admin exactly for members of the admin group, readonly exactly for members of the readonly group only, an error exactly when the lookup fails; ids that do not resolve do not count |
| `HelperAuth.HandleAuthGrants` | host/cmd/pispot-authd/main.go:138-162 | Ok exactly for nonempty credentials that PAM accepts of a user in one of the groups, with role admin exactly for admins |
| `AuthCache.KeyDetermines` | dashboard/internal/authz/cache.go:33-36 | with a digest of fixed length, equal keys mean the same user and the same digest, even for user names with colons |
| `AuthCache.GetAfterSet` | dashboard/internal/authz/cache.go:39-57 | storing changes the answer for that user and digest only, and for at most five minutes |
| `AuthCache.Cache.Lookup` | dashboard/internal/authz/cache.go:39-47 | a hit exactly for an entry that has not expired |
| `AuthCache.Cache.Store` | dashboard/internal/authz/cache.go:50-57 | the entry and its expiry, nothing else |
| `AuthCache.Cache.Handle` | dashboard/internal/authz/middleware.go:36-80 | one request on the cache object ends with the items and the outcome of `Serve` |
| `AuthRuns.AloneIsServe` | dashboard/internal/authz/middleware.go:36-80 | a request that nothing interferes with, driven through its steps in the concurrent model from any state, ends with those same items and that same outcome: forwarded with which role, or refused with 401 or 503 |
| `AuthRuns.RoleProvenance` | dashboard/internal/authz/middleware.go:27-82 | in every interleaving a forwarded request other than /healthz has a role that an answer of the helper granted to this user and this password's digest; this very request obtained the answer after it arrived, or it found it in the cache after it arrived, at most five minutes after the request that obtained it stored it |
| `AuthRuns.OneAnswerOneStore` | dashboard/internal/authz/middleware.go:51-78 | in every interleaving each request obtains at most one answer, for its own credentials and after it arrived, and each answer is stored at most once, by the request that obtained it and not before it did |
| `AuthRuns.SamePassword` | dashboard/internal/authz/middleware.go:51-78 | when the digests of the passwords in play do not collide, the password is the very same |
| `ApiGates.GateExact` | dashboard/internal/api/handlers.go:140-296 | an operation goes to the helper if and only if the request asks for it, the role is admin and a socket is configured |
| `ApiGates.ReactExact` | dashboard/internal/api/handlers.go:140-296 | the whole answer: outside the privileged routes none, then 405 for the method, 403 for the role, 503 without a socket, 400 for a request that asks for nothing, in that order, and otherwise exactly the operation asked for |
| `AuthRuns.OperationProvenance` | dashboard/internal/api/handlers.go:140-296 | every WAN or WiFi operation ever sent goes back to a group resolution in which some resolvable group id of that user was named the admin group, with the request's role obtained as in `AuthRuns.RoleProvenance` |
| `AuthRuns.NoSocketNothingSent` | dashboard/internal/api/handlers.go:149-152 | with no socket configured no operation is ever sent |
| `Netstats.ParseProcNetDev` | dashboard/internal/netstats/throughput.go:202-229 | the map holds an interface exactly when a valid line names it, with the counters of the last such line |
| `NetstatsLaws.CountersWritten` | dashboard/internal/netstats/throughput.go:202-229 | a line laid out from a name, a colon and at least sixteen words sets the counters of that name to the first and the ninth number, printed in decimal, over whatever stood above it, and changes no other name |
| `NetstatsLaws.RowReads` | dashboard/internal/netstats/throughput.go:207-226 | so does the line by itself, unless one of the two numbers exceeds 64 bits; then it is skipped |
| `NetstatsLaws.LineSkipped` | dashboard/internal/netstats/throughput.go:208-218 | a line without a colon, or with fewer than sixteen words behind it, changes nothing |
| `Netstats.Collector.DoTick` | dashboard/internal/netstats/throughput.go:130-175 | the loops over interfaces build the samples and statistics that the conservation law is about |
| `Netstats.LastRate` | dashboard/internal/netstats/throughput.go:155-174 | over any run, a published rate depends on the last two samples only |
| `NetstatsLaws.TickPublishes` | dashboard/internal/netstats/throughput.go:130-195 | over any run, the last tick publishes the last reading as totals, and as rates its difference to the reading before over the time between them, in megabits per second; zeros where a reading is missing, a counter fell or time stood still |
| `NetstatsLaws.TwoReadings` | dashboard/internal/netstats/throughput.go:130-229 | the same from text to statistics: two /proc/net/dev files with a line for an interface publish the second line's numbers as totals and the rates between the two lines |
| `Netstats.RatesConserveBytes` | dashboard/internal/netstats/throughput.go:130-195 | over any run the sum of rate times elapsed time is exactly the sum of the counter increases between adjacent ticks that both saw the interface with time moving on |
| `Netstats.RatesTelescope` | dashboard/internal/netstats/throughput.go:130-195 | for a present, never-falling counter under a strictly increasing clock that sum is the last counter minus the first |
| `WizardFiles.BuildGroupVars` | scripts/init.py:129-159 | the growing list of lines joins to the text that the readers' laws are about |
| `WizardFiles.LoadEnv` | scripts/init.py:33-44 | the loop builds the map in which the last line of each key wins |
| `WizardHandEnv.HandEnvLaw` | scripts/init.py:33-44 | in a file of bindings, words, comments and blank lines with any white space around lines, keys and values, a key is bound exactly when some line binds it, and to the value of the last such line |
| `WizardHandEnv.EnvOffers` | scripts/init.py:187-218 | after such an edit the host prompt offers what PI_HOST was last set to, and the title and the certificate name of that file win over group_vars |
| `Wizard.LoadGroupVars` | scripts/init.py:47-86 | the scalars, the networks and the user that the three searches find, and nothing at all without group_vars |
| `WizardLaws.FindScalar` | scripts/init.py:61-67 | the search for a key finds the printed value, wherever its line is among the others |
| `WizardHand.HandLaw` | scripts/init.py:60-67 | whatever the other lines are, a value written by hand is read back with or without either quotation mark and without the white space around it |
| `WizardHandEnv.VarsOffer` | scripts/init.py:183-253 | each of the six keys of group_vars, so edited, is what its own prompt offers, the title and the certificate name only where `.env` has none |
| `WizardLaws.FindNoScalar` | scripts/init.py:61-67 | it finds nothing when the value has a quotation mark |
| `WizardLaws.FindWans` | scripts/init.py:71-76 | the expression for networks finds every printed network with both values, in order, and nothing before, between or after them |
| `WizardHandWan.HandNetworks` | scripts/init.py:69-78 | between other lines, every network written by hand on two lines is read back, with or without quotation marks and with any white space around its values, in order, and nothing else is |
| `WizardUser.UserLaw` | scripts/init.py:81-84 | for every host and user, what is read back as the user: the name inside the host if there is one, else the first word of the user |
| `WizardUser.HostStealsUser` | scripts/init.py:81-84 | the host ansible_user=y turns the saved user pi into y |
| `WizardEnv.EnvLaw` | scripts/init.py:33-44 | for all answers, what load_env makes of dashboard/.env: each key is bound to the first line of its value unless a line hidden in this or a later value binds it again |
| `WizardEnv.HostKeptExact` | scripts/init.py:187-190 | the host is read back exactly when it has no break and no line hidden in the other two values names another host |
| `WizardEnv.CertKeptExact` | scripts/init.py:215-218 | the certificate name is offered again exactly when it has no break and is not rebound, or is rebound to itself, or is rebound to nothing and can be read from group_vars |
| `WizardEnv.TitleKeptExact` | scripts/init.py:200-203 | the same for the title |
| `WizardEnv.BrokenHostLost` | scripts/init.py:33-44 | the host rasp, U+2028, berry is read back as rasp |
| `WizardEnv.TitleRenamesHost` | scripts/init.py:33-44 | the title a, U+2028, PI_HOST=b makes b the host |
| `WizardRecovery.ScalarLaw` | scripts/init.py:60-67 | for every completed configuration a scalar is read back unchanged, or not at all if it has a quotation mark |
| `WizardRecovery.WanRecovered` | scripts/init.py:69-78 | the full list of networks is read back when no value in it has a quotation mark |
| `WizardRecovery.NetworksTaken` | scripts/init.py:71-76 | whatever the file holds, no network read from it has a quotation mark or a newline |
| `Wizard.Session.AskRequired` | scripts/init.py:104-110 | the loop asks until there is an answer or the input ends |
| `Wizard.Session.AskPassword` | scripts/init.py:250-261 | the loop asks until the answer has eight characters or the input ends |
| `Wizard.Session.AskNetworks` | scripts/init.py:270-303 | the loop over networks with its saved defaults, its rule that the first is required, and its end at a blank name |
| `Wizard.Session.Setup` | scripts/init.py:166-343 | a whole run: either all answers and all three files, or an early end that leaves the files as they were |
| `WizardPrompts.RepliesTaken` | scripts/init.py:93-303 | for all defaults and all lines typed at the prompts, in the order of the source, including required answers left blank and passwords too short, each field is what was typed at its prompt, stripped, or its own default where nothing was typed |
| `WizardPrompts.TypedTaken` | scripts/init.py:93-303 | when something is typed everywhere, the configuration is exactly the stripped answers, the list of networks included, whatever was saved before |
| `WizardPrompts.EveryRunIsReplies` | scripts/init.py:166-303 | every run that completes, on any input, took its lines as such replies |
| `WizardPrompts.FirstOffers` | scripts/init.py:172-253 | without group_vars the prompts offer what `.env` holds and the built-in defaults, whatever the inventory says |
| `WizardRuns.DefaultsLaw` | scripts/init.py:172-253 | field by field, what the prompts offer after a completed run |
| `WizardRuns.BrokenHostNotKept` | scripts/init.py:187-190 | no host with a break in it is offered again |
| `WizardRuns.KeepNetworks` | scripts/init.py:281-303 | Enter alone keeps every saved network and ends the loop after them, using 2n+1 lines |
| `WizardRuns.EnterKeeps` | scripts/init.py:166-343 | a rerun answered with Enter alone ends after exactly 9+2n lines with the saved configuration, or runs out of input if there are fewer |
| `WizardRuns.VarsTell` | scripts/init.py:129-159 | different values make different group_vars texts |
| `WizardRuns.EnterFixpoint` | scripts/init.py:166-343 | such a rerun writes all three files back byte for byte exactly when no value kept only in group_vars has a quotation mark, no line hidden in a value of .env changes what is read there, and the user can be read back |
| `WizardHistory.AnswersComplete` | scripts/init.py:187-303 | every completed run has asked for everything: no empty value, passwords of at least eight characters, at least one network |
| `WizardHistory.SittingsWhole` | scripts/init.py:166-343 | from a checkout without files, after any number of runs with any answers, there are no files or the three files of one complete configuration |
| `WizardHistory.HistoryFixpoint` | scripts/init.py:166-343 | so the exact law for Enter holds after every history |

## Left out

- Concurrent writers of the network file: nothing in the server serialises them, so runs are serial.
- Bytes that are not valid UTF-8: text is a sequence of characters. Which characters outside ASCII Go calls printable is a parameter, and every result holds for every such table.
- What `Reload`, `wan.Up` and `wan.Down` do: sequences of external commands. The outcomes of `iw`, `ip`, PAM, NSS, file reads, sockets and clocks are arbitrary inputs of each step.
- `parseIwLink`, `parseIPAddr` and `parseIPRoute`: the results hold for whatever they return. Where each of their values goes is stated by `WanCollector.WanUp`, `WanDown`, `WanFails`, `AdminCollector.AdminReads` and `AdminFails`.
- WizardHandWan.HandNetworks: behind the closing quotation mark of a password the line ends; other lines must not begin with white space.
- TtlProtocol.NeverTheInitial: the clock is at least ttl past Go's zero time, as any real clock is.
- HTTP, JSON, the listener, Basic Auth header parsing and path cleaning by the router: a request is its method, path, credentials and decoded body.
- SHA-256 itself: a digest of fixed length; collisions are excluded only for the passwords in play, where a statement says so.
- Floating-point rounding: rates are real numbers.
- `strings.ToLower` outside ASCII: MAC addresses are ASCII.
- HotspotCollector.SortByMac: `sort.Slice` is modelled by an insertion sort; the order of equal MACs is left open in all results.
- `WanCollector` and `AdminCollector` publish values, not heap objects: nothing in them shares a slice. The heap is modelled where it matters, in `HotspotCollector`.
- HotspotCollector.Collector.Latest: the lock is not part of the class; interleavings of callers are the subject of `TtlProtocol`.
- Wizard.Session.Setup: errors while writing files, and prompts that read from the terminal instead of standard input.
- WizardHistory.HistoryFixpoint: an answer with a carriage return inside. A terminal turns it into a newline; only piped input can hold one, and Python turns it into a newline when it reads the file back, which is not modelled. All other characters of a line are covered.
- Regex: only the constructs the wizard's expressions use.
- Logging, `prev*` fields that only decide what is logged, `system/info.go`, `config.go`, `check_secrets.py`, the browser code, Ansible and Docker files: easy or not logic.
