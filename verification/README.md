# WireGuide Plus: a verified model of its core

WireGuide Plus is a desktop WireGuard client. This project models, in Dafny, the
parts of it whose correctness rests on more than one function, and proves what
they promise:

- **The Windows firewall** (`WfpPolicy`, `WfpStore`, `WfpBook`, `FirewallSteps`,
  `FirewallState`, `FirewallOrigins`, `FirewallHistory`, `WindowsFirewall`). Kill switch, loop protection and DNS
  protection are weighted filters in one dynamic session of the filter store,
  whose calls may fail at any point. `Rules` says what is switched on, `Policy`
  which packets may then leave. Three results make the chain: the filters of some
  rules compute the policy of those rules however ties are broken
  (`FiltersComputePolicy`); in every run without failures the store holds exactly
  the filters of the rules, so its verdict is the policy's, which `FirewallHistory`
  tells from the calls alone; and in every run, with
  failures anywhere, the flags never claim more than what is installed, nothing is
  in force that no call asked for, and the kill switch fails closed (`Run`).
- **The macOS firewall** (`PfRules`, `PfText`, `DarwinSteps`, `DarwinHistory`,
  `DarwinFirewall`). The same features as the rules of a main pf anchor and a DNS
  sub-anchor, between which the DNS rules move. The text in the anchors is read
  word by word, and lets through what the calls of the run allow (`Run`).
- **The .conf text** (`WireGuardConfig`, `ConfigParser`, `ConfigPrinter`,
  `ConfigRoundTrip`, `ConfigAccepted`), the field editor (`FieldEditor`,
  `FieldEditorLaws`, `FieldReading`) and the hook editor (`HookEditor`,
  `HookEditorLaws`), which rewrite that text in place. The results are round
  trips, reading after writing, what an edit leaves alone, and exactly when an
  edit of the text is an edit of the parsed configuration: `HookParsing` and
  `HookReading` for hooks, and for fields `SectionParsing`, `SectionValues`, `FieldParsing`,
  `FieldAgreement`, `FieldSetting` and `FieldSaving`.
  `ConfigMeaning` has the tables of the parser and the printer written out.
- **Connection history** (`HistoryReconciler`, `HistoryLaws`, `HistoryLedger`):
  sessions opened and closed from status events, with a signature that skips the
  unchanged ones, over runs of any length.
- **Smaller algorithms**: overlapping routes (`CidrConflict`), endpoint choice
  (`EndpointPick`), the managed block of an AGENTS.md (`AgentsMerge`), BSD address
  expansion (`RouteText`) and the scutil reader (`ScutilParser`).

`Text`, `StringOrder` and `Wrappers` hold what these share. Code that works by
changing state is a class or a method with loops, specified by a function whose
properties are the lemmas; `S()` gives the value of an object's fields.

## Where the code falls short of its promise

Each of these is proved, with the exact condition or a concrete input.

- Disabling DNS protection without the kill switch closes the session and with it
  all loop protection (`internal/firewall/windows.go:1129-1131`), although the
  method is meant to leave everything else intact: `FirewallSteps.FeaturesAreIndependent`.
- Turning the kill switch off drops DNS protection when no listed server had
  parsed (`internal/firewall/windows.go:815`): `FirewallSteps.DisableKillSwitchDropsEmptyDns`.
- On macOS a query over a tunnel, on loopback or to an endpoint passes before the
  DNS rules are met, so that DNS protection is weaker with the kill switch than
  without:
  `PfRules.EscapesDnsRulesExactlyWhen`. A Disable with both flags off can turn pf
  off: `DarwinSteps.CallTurnsPfOff`. With DNS protection turned on before the kill
  switch, pf that was off is left on when both are off again: `DarwinSteps.PfStaysOn`.
- A user's disconnect of an attempt that never got its handshake stays noted, and
  labels the close of the tunnel's next session: `HistoryLedger.StaleMark`, with the
  exact condition in `HistoryLedger.CloseReasonIs`.
- Printing drops negative integers that parsing accepts: `ConfigAccepted.NegativeIntegersAreLost`.
- The hook editor's pattern does not count a vertical tab as white space, the
  parser does: `HookParsing.VerticalTabEscapes`. An edit can change the line
  ending that the next edit uses: `HookEditorLaws.LineEndingFlips`.
- A command of several lines, which the hook editor only trims, never reads
  back and can set another hook: `HookEditorLaws.GetAfterSet`,
  `HookEditorLaws.OtherHooksAreUnchanged`.
- The field editor shows the last of several lines of a list or a hook and writes
  it over all of them, so that saving a peer with two AllowedIPs lines loses the
  first and repeats the last: `FieldSaving.TwoLinesLoseTheFirst`, and for any list
  `FieldSaving.SavingRepeatsTheLast`. A key that the parser knows no field for is
  dropped on saving when its value is empty. The exact conditions are in
  `FieldSaving.SavingKeepsExactlyWhen` and `FieldSetting.SetAgreesExactlyWhen`.
- A new prefix strictly inside an existing one is still reported when both have
  the same network address, against the comment at
  `internal/diag/conflict.go:459-463`: `CidrConflict.SameAddressIsReported`.
- A stray marker makes the merge lose the text after it, or grow by a block each
  time, although other content is to stay untouched: `AgentsMerge.StrayBeginLosesText`,
  `AgentsMerge.StrayEndGrows`.

## Model

| member | source | states |
|---|---|---|
| WfpPolicy.FiltersComputePolicy | internal/firewall/windows.go:410-502 | for all rules and packets, whichever way the engine breaks ties between equal weights: a packet can leave iff the policy lets it, and can be dropped iff the policy does not |
| WfpPolicy.LoopbackTie | internal/firewall/windows.go:647-686 | the tie is real: a protected loopback endpoint has both answers at the connect layer, and only the transport-layer copy of the block settles it |
| WfpPolicy.LoopBlocksAt | internal/firewall/endpoint_protection_windows.go:258-360 | a loop block is the same block at the connect and the transport layer of its endpoint's family |
| WfpBook.TrackedIdsAreDisjoint | internal/firewall/windows.go:450-502 | in an exact book no id has two owners, and every live filter is somebody's |
| WfpBook.NoCatchAllWhenOff | internal/firewall/windows.go:251-276 | in a sound book without the kill switch no catch-all block is in force at either layer |
| FirewallState.TrackedStoreComputesPolicy | internal/firewall/windows.go:410-502 | a store that holds exactly what the rules call for lets out exactly what the policy of those rules lets out |
| WindowsFirewall.Run | internal/firewall/windows.go:363-1158 | every run from a new firewall: with any call failing anywhere the state is safe (no session, no flags and no ids; kill switch on iff the whole base set stands; off, no catch-all), every filter in force was asked for by a call of the run, and while the kill switch is on a packet leaves only if it is of the base kinds or a call lets it out; without failures the store is the disjoint union of what the rules call for, its verdict is the policy's, and a packet leaves iff the calls, told from the last ones of each kind, let it |
| FirewallHistory.PolicyIsHistory | internal/firewall/windows.go:363-1158 | after every run without failures, said without rules, filters or weights: a packet may leave iff no endpoint of the last call that protects its tunnel names it, and, if the last DNS call still stands and it is a query, it goes to one of that call's servers, and otherwise, if the kill switch was turned on and not off since, it is 127/8, ::1, DHCP or ICMPv6 to fe80::/10, or on a tunnel, or to an endpoint, of the first call that added a tunnel not removed since |
| FirewallHistory.PeerIsStopped | internal/firewall/endpoint_protection_windows.go:145-161 | a datagram on a protected tunnel to an endpoint's address, and to its port if it names one other than zero, cannot leave while no later call is about that protection or closes the session |
| FirewallHistory.OthersPass | internal/firewall/endpoint_protection_windows.go:145-161 | the converse: with neither the kill switch nor DNS protection every other packet leaves |
| FirewallHistory.RefusedExactlyWhen | internal/firewall/windows.go:363-1158 | which calls return an error: a tunnel without an interface, an empty name, or endpoints of which none can be read |
| FirewallOrigins.FailsClosed | internal/firewall/windows.go:363-1158 | in every safe state whose filters calls of the run asked for, while the kill switch is on a packet leaves only if it is loopback, DHCP or neighbour discovery, on a tunnel or to an endpoint that a call named, or a query to a DNS server that a call named |
| FirewallOrigins.LeavesByPermit | internal/firewall/windows.go:410-443 | with the base set in force a packet leaves only if some filter in force matches it at the connect layer and permits it |
| FirewallSteps.DisableKillSwitchKeepsProtections | internal/firewall/windows.go:781-854 | with a listed DNS server, turning the kill switch off keeps loop protection and DNS restriction for every packet and lifts everything else |
| FirewallSteps.DisableKillSwitchDropsEmptyDns | internal/firewall/windows.go:809-818 | DNS protection survives turning the kill switch off iff the installed list is not the empty one (enabled with nothing that parsed) |
| FirewallSteps.AddThenRemove | internal/firewall/windows.go:581-632 | a tunnel that was not there comes and goes without a trace in the rules |
| FirewallSteps.FeaturesAreIndependent | internal/firewall/windows.go:1081-1133 | calls about one feature leave the others alone, except that disabling DNS protection without the kill switch drops all loop protection, and exactly then |
| FirewallState.AbandonedIsValid | internal/firewall/windows.go:380-385 | an abandoned transaction, whatever it left noted for a tunnel, keeps the state valid |
| FirewallState.DnsForgottenIsValid | internal/firewall/windows.go:890-901 | a failed DNS re-enable, which forgets the old ids while the abort keeps the filters, keeps the state safe |
| FirewallState.RebuiltRules | internal/firewall/windows.go:798-853 | the rules after a rebuild from the two snapshots are those that turning the kill switch off calls for |
| WindowsFirewall.Firewall.constructor | internal/firewall/windows.go:100-109 | no session, no flags, nothing tracked, an empty store |
| WindowsFirewall.Firewall.EnsureSession | internal/firewall/windows.go:186-237 | opens a session unless one is open, and changes nothing else; a failed registration leaves none |
| WindowsFirewall.Firewall.CloseSession | internal/firewall/windows.go:251-276 | afterwards no session, no filter in force, no flag and no id |
| WindowsFirewall.Firewall.AddFilter | internal/firewall/windows.go:319-347 | adds one filter under the next id inside the transaction, or nothing |
| WindowsFirewall.Firewall.PermitLoopback | internal/firewall/windows.go:647-686 | the two loopback permits of the base set, weight 13, in order |
| WindowsFirewall.Firewall.PermitDhcp | internal/firewall/windows.go:689-710 | the two DHCP permits of the base set |
| WindowsFirewall.Firewall.PermitICMPv6LinkLocal | internal/firewall/windows.go:714-735 | the link-local ICMPv6 permit of the base set |
| WindowsFirewall.Firewall.InstallBaseFilters | internal/firewall/windows.go:410-443 | the transaction grows by exactly the base set, both catch-all blocks included |
| WindowsFirewall.Firewall.PermitEndpoint | internal/firewall/windows.go:536-575 | one UDP permit to one address more |
| WindowsFirewall.Firewall.InstallTunnelFilters | internal/firewall/windows.go:450-502 | the transaction grows by the permits of the tunnel, whose ids are noted under its name; it fails iff the interface is unknown or a call failed |
| WindowsFirewall.Firewall.EnableKillSwitch | internal/firewall/windows.go:363-405 | the state stays valid whatever fails, the flag is set iff it was or the call succeeds; without failures rules and result are those of the step |
| WindowsFirewall.Firewall.AddTunnelFilters | internal/firewall/windows.go:507-529 | the same for a tunnel added while the kill switch is on; one already there is left as it is |
| WindowsFirewall.Firewall.AddKillSwitchTunnel | internal/firewall/windows.go:581-591 | nothing without the kill switch, an error without a name, otherwise the step |
| WindowsFirewall.Firewall.RemoveKillSwitchTunnel | internal/firewall/windows.go:597-632 | only the ids noted for this tunnel can go, whatever fails; without failures the step |
| WindowsFirewall.Firewall.InstallEndpointBlockFilter | internal/firewall/endpoint_protection_windows.go:258-360 | the block at both layers, and its two ids |
| WindowsFirewall.Firewall.RemoveEndpointProtectionFilters | internal/firewall/endpoint_protection_windows.go:217-246 | only the ids noted for this interface can go; without failures its guard is out of the rules |
| WindowsFirewall.Firewall.EnableEndpointProtectionLocked | internal/firewall/endpoint_protection_windows.go:106-193 | replaces the protection of the interface; refused with an unknown interface or when no endpoint parses, and then the old protection is gone |
| WindowsFirewall.Firewall.EnableEndpointProtection | internal/firewall/endpoint_protection_windows.go:91-101 | an error without a name, nothing without endpoints, otherwise the step |
| WindowsFirewall.Firewall.DisableEndpointProtection | internal/firewall/endpoint_protection_windows.go:198-211 | only this interface's filters can go; without failures the step |
| WindowsFirewall.Firewall.PermitDnsServer | internal/firewall/windows.go:962-1039 | the UDP and the TCP permit for one server |
| WindowsFirewall.Firewall.BlockAllDns | internal/firewall/windows.go:1063-1079 | the four port-53 blocks |
| WindowsFirewall.Firewall.PermitDnsServers | internal/firewall/windows.go:908-920 | permits for exactly the servers that parse, which are the ones remembered |
| WindowsFirewall.Firewall.EnableDnsProtectionLocked | internal/firewall/windows.go:872-937 | replaces the DNS filters in one transaction; touches neither the kill switch nor loop protection |
| WindowsFirewall.Firewall.EnableDnsProtection | internal/firewall/windows.go:863-867 | the state stays valid whatever fails; without failures the step |
| WindowsFirewall.Firewall.DisableDnsProtection | internal/firewall/windows.go:1081-1133 | with the kill switch only the DNS filters go; without it the session is closed |
| WindowsFirewall.Firewall.DisableKillSwitch | internal/firewall/windows.go:781-854 | when it returns no error, whatever failed before and in any map order: every filter in force has a fresh id, nothing of the kill switch is left, loop protection is noted and installed as in the snapshot, and so are the DNS servers; the book is exact again. Whatever fails, nothing comes into force that was not in force or noted |
| WindowsFirewall.Firewall.Cleanup | internal/firewall/windows.go:1153-1158 | an empty store and no rules |
| ConfigParser.Parse | internal/config/parser.go:26-124 | the scan loop computes the line-by-line reading of the text, with its errors: too large, a line that fills the scanner, NUL, no equals sign, bad values, no private key |
| ConfigMeaning.ProtocolExactlyWhen | internal/config/parser.go:114-121 | for every accepted text: it is of AmneziaWG iff the last value of jc, jmin, jmax or s1 to s4 in its interface sections is a number other than zero, or the last value of h1 to h4 is not empty |
| ConfigMeaning.FirstBadLine | internal/config/parser.go:46-101 | the first line that is refused decides the error: a NUL, no equals sign, outside a section, a bad number or keepalive, or more than 10000 allowed addresses, with its own number |
| ConfigMeaning.LineIsRefusedWhen | internal/config/parser.go:46-101 | a line is refused iff one of these holds of it |
| ConfigMeaning.NoBadLine | internal/config/parser.go:106-121 | with no bad line, only a missing private key is an error |
| ConfigMeaning.SizesTell | internal/config/parser.go:28-44 | more than 1048576 characters are too large, and as many on one line are too long |
| ConfigMeaning.BomIsStripped | internal/config/parser.go:33-34 | a byte order mark before a text makes no difference |
| ConfigMeaning.KeepaliveExactlyWhen | internal/config/parser.go:252-271 | a keepalive is read iff it is a number that is not negative, with or without s, sec, secs, second or seconds in any case, and with blanks around the number |
| ConfigMeaning.ItemsTell | internal/config/parser.go:395-405 | one more item after a comma: it is added trimmed, unless nothing is left of it |
| ConfigMeaning.ScriptTells | internal/config/parser.go:376-384 | the commands of a hook's lines are joined with NUL, and an empty first one adds nothing |
| ConfigMeaning.InterfacePrints | internal/config/parser.go:276-323 | the printed interface line by line, each key spelled out and in its place |
| ConfigMeaning.PeerPrints | internal/config/parser.go:325-362 | the same for a peer |
| ConfigMeaning.EachKeyOnce | internal/config/parser.go:321-323 | the extra keys are printed once each, in some order |
| ConfigMeaning.LinesEnd | internal/config/parser.go:276-367 | each printed line ends in a newline |
| Text.AtoiExactlyWhen | internal/config/parser.go:126-201 | a number is read iff the text is its decimal digits, with zeros and a sign before them |
| Text.TrimTells | internal/config/parser.go:46-101 | trimming takes the six blank characters off both ends, and nothing else |
| Text.LowerTells | internal/config/parser.go:62-73 | lower case changes the twenty-six capitals, and nothing else |
| ConfigParser.ParseInterfaceKey | internal/config/parser.go:126-201 | sets the one field that the key names whatever its case, or keeps an unknown key |
| ConfigParser.ParsePeerKey | internal/config/parser.go:203-239 | the same for a peer, with the cap on allowed addresses |
| ConfigParser.ParseKeepaliveSeconds | internal/config/parser.go:252-271 | a non-negative integer, with or without a unit of seconds |
| ConfigParser.SplitAndTrim | internal/config/parser.go:395-405 | the non-empty trimmed items between commas |
| ConfigPrinter.Serialize | internal/config/parser.go:276-367 | prints the entries of the configuration, for some order of each extra-key map |
| ConfigPrinter.WriteScriptLines | internal/config/parser.go:386-393 | one line for each command between separators |
| ConfigRoundTrip.AppendAllOfSplit | internal/config/parser.go:376-393 | appending the commands between separators one by one gives the script value back |
| ConfigRoundTrip.SpacedItems | internal/config/parser.go:395-405 | items without commas, joined with a comma and a space, split into themselves |
| ConfigRoundTrip.KeepaliveOfItoa | internal/config/parser.go:252-271 | a keepalive printed in decimal reads back as itself |
| ConfigRoundTrip.EntryParses | internal/config/parser.go:65-101 | every printed line, key or header, parses as the entry it came from |
| ConfigRoundTrip.InterfaceReads | internal/config/parser.go:276-345 | the printed interface section, in any order of extra keys, reads back as the interface with negative integers set to zero |
| ConfigRoundTrip.PeerReads | internal/config/parser.go:326-362 | a printed peer reads back as that peer, an explicit zero keepalive apart from an unset one |
| ConfigRoundTrip.ParsePrinted | internal/config/parser.go:26-405 | what the parser makes of any printed configuration |
| ConfigRoundTrip.RoundTripsExactlyWhen | internal/config/parser.go:26-405 | parsing the print gives the configuration back iff the print fits, no integer is negative, and the protocol is the one the keys imply |
| ConfigAccepted.ParsedIsPrintable | internal/config/parser.go:26-271 | every accepted text gives a configuration the round trip is about: clean values, items and keys |
| ConfigAccepted.ParsePrintParse | internal/config/parser.go:26-405 | parse, print, parse is parse on an accepted text iff the print fits and the text has no negative integer, for every order of extra keys |
| ConfigAccepted.NegativeIntegersAreLost | internal/config/parser.go:276-345 | an accepted text, with a negative MTU, that no print reads back as |
| WireGuardConfig.IntNames | internal/config/parser.go:126-201 | each printed integer key is read as the field it was printed for |
| WireGuardConfig.PeerNames | internal/config/parser.go:203-239 | each printed peer key is read as the field it was printed for |
| FieldEditor.GetTunnelFields | internal/app/field_ops.go:44-75 | the section by section reading of the text |
| FieldEditor.LookupManagedKey | internal/app/field_ops.go:182-189 | a value iff some model key differs at most in case |
| FieldEditor.RewritePass | internal/app/field_ops.go:114-146 | the first pass gives the rewritten sections and, for each section of an interface or a peer, where it lies |
| FieldEditor.InsertAt | internal/app/field_ops.go:172-175 | growing by one and shifting the tail inserts one line and keeps the rest |
| FieldEditor.MissingKeys | internal/app/field_ops.go:163-170 | the non-empty model keys that no line of the section has, sorted |
| FieldEditor.InsertMissing | internal/app/field_ops.go:149-176 | one span, with its missing keys put at its end |
| FieldEditor.InsertionPass | internal/app/field_ops.go:149-176 | inserting last span first, with all its index shifting, gives each section as header, rewritten body and missing keys in sorted order |
| FieldEditor.SetTunnelFields | internal/app/field_ops.go:83-179 | nothing without a model, an error iff some key is empty or holds a bracket, an equals sign, a newline or a carriage return, and otherwise the edited document |
| ConfigMeaning.NamesAreAllowed | internal/app/field_ops.go:88-94 | every key that the parser has a field for is taken |
| StringOrder.LessTells | internal/app/field_ops.go:170 | in byte order a text comes before its extensions, and before one with a greater character where they first differ |
| StringOrder.LessIs | internal/app/field_ops.go:170 | and before no other |
| FieldEditorLaws.AddedTells | internal/app/field_ops.go:149-176 | what is put at the end of a section: key, space, equals sign, space and value for each model key that has a value and no line, in ascending byte order |
| FieldEditorLaws.LineTells | internal/app/field_ops.go:131-142 | a line that assigns a model key, in whatever case, is given its value under its own spelling, or goes if that is empty, and any other stays |
| FieldEditorLaws.KeyAndValueAre | internal/app/field_ops.go:44-75 | the key and the value of a line are what stands before and after its first equals sign, trimmed |
| FieldEditorLaws.SectionTells | internal/app/field_ops.go:114-176 | an edited section is its header, its lines one by one, and the added ones |
| FieldEditorLaws.DocumentOfEdited | internal/app/field_ops.go:83-179 | the edited text has the sections of the edited document |
| FieldEditorLaws.SetKeepsOtherLines | internal/app/field_ops.go:83-179 | every line before the first section, every header and every line that no model key manages survives byte for byte, in place and order |
| FieldReading.GetAfterSetExactlyWhen | internal/app/field_ops.go:44-179 | for every model the editor takes: in every section it covers each model key reads as its value, or is gone when that is empty, and all else reads as before, iff every value written survives on its line (key trimmed and no comment, value trimmed and of one line) |
| FieldReading.SetWhatWasRead | internal/app/field_ops.go:44-179 | setting in a text what was read from it drops the empty fields and changes no other |
| FieldEditorLaws.SetIsIdempotent | internal/app/field_ops.go:83-179 | an edit done twice is the edit done once, for trimmed keys and values of one line |
| FieldEditorLaws.BlockEditIsIdempotent | internal/app/field_ops.go:114-176 | the same for one section |
| SectionParsing.DocumentParses | internal/config/parser.go:46-110 | which texts the parser accepts, section by section: no NUL, each line blank, a comment or an assignment, none before the first section, and the assignments of each section accepted |
| SectionParsing.ScanIs | internal/config/parser.go:46-110 | the result is one interface from the assignments of all interface sections, and one peer from those of each peer section |
| SectionValues.FieldIs | internal/config/parser.go:126-201 | each field of the interface is what the values assigned to its key make of it, in order: the last text or number, all the items, all the commands |
| SectionValues.PeerFieldIs | internal/config/parser.go:203-239 | the same for a peer |
| SectionValues.PeerFoldsWhen | internal/config/parser.go:203-239 | the assignments of a peer are accepted iff each keepalive parses and all allowed addresses together are within the cap |
| SectionValues.BlocksReadLast | internal/app/field_ops.go:44-75 | the field editor reads, for each key as spelled, the last value that the parser is given |
| FieldParsing.EditedValues | internal/app/field_ops.go:114-176 | what an edit does to the values of one key in one section: none when the model value is empty, otherwise the model value on as many lines as there were, or on one |
| FieldSetting.SetAgreesExactlyWhen | internal/app/field_ops.go:83-179 | for every model the editor takes: the model reads back and the edited text parses as the same configuration with the model keys set, iff the edited text fits, each value written survives on its line and has no NUL, each is one that the parser takes, the private key is kept, and no list or command comes to stand on several lines |
| FieldSaving.SavingKeepsExactlyWhen | internal/app/field_ops.go:44-179 | saving an accepted text as the editor read it keeps the parsed configuration iff the text still fits, each list and hook reads the same from its last line repeated as from all its lines, and no key without a field is empty |
| FieldSaving.InterfaceStaysWhen | internal/app/field_ops.go:114-176 | the same for the interface alone |
| FieldSaving.PeerStaysWhen | internal/app/field_ops.go:114-176 | the same for one peer |
| FieldSaving.SeveralLinesRepeat | internal/app/field_ops.go:114-146 | of a peer with any number of AllowedIPs lines the parser reads the items of all lines, and after an edit those of the model value once for each line |
| FieldSaving.SavingRepeatsTheLast | internal/app/field_ops.go:44-146 | for all lists of addresses there is an accepted text with a line for each, whose peer has after saving only the last of them, as often as there were lines |
| FieldSaving.TwoLinesLoseTheFirst | internal/app/field_ops.go:44-146 | one such text, with 10.0.0.1/32 and 10.0.0.2/32: saved, it gives the second twice |
| HookEditor.GetHookFromText | internal/app/script_ops.go:66-83 | the commands of the hook's lines in interface sections, joined |
| HookEditor.SetHookInText | internal/app/script_ops.go:89-126 | the text with the hook's lines in interface sections replaced by one |
| HookEditorLaws.GetAfterSet | internal/app/script_ops.go:66-126 | for every trimmed command: it reads back, or nothing does when there is no interface section, iff there is none or the command is of one line |
| HookEditorLaws.OtherHooksAreUnchanged | internal/app/script_ops.go:66-126 | for every trimmed command: another hook reads as before iff nothing is put in or no line put in sets that hook |
| HookEditorLaws.OneLineSetsNoOther | internal/app/script_ops.go:66-126 | the line of a one-line command sets no other hook |
| HookEditorLaws.SetIsIdempotentExactlyWhen | internal/app/script_ops.go:89-126 | for every trimmed command: twice is once iff the command is empty, or there is no interface section, or all lines put in are of the hook and the edit leaves the line ending as it was |
| HookEditorLaws.OneLineIsOnlyItsOwn | internal/app/script_ops.go:89-126 | the line of a one-line command is of the hook |
| HookEditorLaws.LineEndingAfterSet | internal/app/script_ops.go:89-126 | for every trimmed command, exactly when an edit changes whether the text has a carriage return before a newline |
| HookEditorLaws.LineEndingFlips | internal/app/script_ops.go:89-126 | a one-line text on which the edit done twice differs from the edit done once |
| HookEditorLaws.HookLineParses | internal/app/script_ops.go:58-60 | every line the editor takes for one of the hook, the parser takes for one of that hook |
| HookParsing.ParseAfterSet | internal/app/script_ops.go:89-126 | what the parser makes of the edited text, for every accepted text and one-line command: only the edited hook differs |
| HookParsing.AcceptedHasSection | internal/config/parser.go:93-97 | every accepted text has an interface section |
| HookParsing.SetAgreesExactlyWhen | internal/app/script_ops.go:89-126 | for every trimmed command: the parse of the edited text is the parse with that hook set to the command iff the command has no newline and no NUL and no line of the hook that the editor does not see is in the way |
| HookParsing.SetAgrees | internal/app/script_ops.go:89-126 | for every text without a vertical tab: iff the command has no newline and no NUL |
| HookParsing.VerticalTabEscapes | internal/app/script_ops.go:58-60 | for every command there is a text where it is not: a hook line after a vertical tab |
| HookReading.ReadAgreesExactlyWhen | internal/app/script_ops.go:66-83 | the editor reads from an accepted text the commands that the parser reads iff no line of the hook that has one escapes it, and then shows them in order between semicolons |
| HookReading.ReadAgrees | internal/app/script_ops.go:66-83 | so it does for every such text without a vertical tab |
| HistoryReconciler.TunnelService.ReconcileHistoryFromStatus | internal/app/tunnel_ops.go:863-972 | the new state is the refreshed one when the signature is unchanged, and otherwise the one with vanished sessions closed, vanished attempts dropped and the new ones opened or pending |
| HistoryReconciler.TunnelService.MarkUserDisconnect | internal/app/tunnel_ops.go:612-623 | only the reason changes; counters come from the cache, or from the snapshot when there is none |
| HistoryReconciler.TunnelService.ClearUserDisconnect | internal/app/tunnel_ops.go:628-637 | only a user's reason is taken back |
| HistoryReconciler.TunnelService.CloseVanished | internal/app/tunnel_ops.go:912-938 | closes exactly the sessions of the tunnels no longer reported, whatever the order |
| HistoryReconciler.TunnelService.OpenSessions | internal/app/tunnel_ops.go:951-971 | opens exactly the sessions due |
| HistoryReconciler.ComputeActiveSetSignature | internal/app/tunnel_ops.go:1001-1013 | the sorted names, joined |
| HistoryReconciler.ComputeHandshakeSignature | internal/app/tunnel_ops.go:976-995 | a flag for each name, in the order reported |
| HistoryLaws.SignatureTells | internal/app/tunnel_ops.go:976-1013 | two events with the same signature report the same tunnels with the same handshakes, for names without NUL and semicolon |
| HistoryLaws.SemicolonConfuses | internal/app/tunnel_ops.go:976-995 | for every name there is one with a semicolon such that two events over both, with different handshakes, have the same signature |
| HistoryLaws.ValidNamesAreClean | internal/storage/name.go:32-52 | the names that the storage admits have neither |
| HistoryLaws.RunSettles | internal/app/tunnel_ops.go:863-972 | after every run the state has settled on the last event: only reported tunnels are tracked, and every reported one has a session unless it waits for its handshake |
| HistoryLaws.UnchangedIsNoDiff | internal/app/tunnel_ops.go:898-910 | in every reachable state, when the signature is unchanged the whole diff would do nothing |
| HistoryLaws.FastPathIsSound | internal/app/tunnel_ops.go:898-910 | every run ends in the state that taking the whole diff at every event gives |
| HistoryLedger.RunKeepsLedger | internal/app/tunnel_ops.go:863-972 | over every run a session has no close iff it is the one its tunnel tracks, and exactly one otherwise |
| HistoryLedger.OneOpenSession | internal/app/tunnel_ops.go:863-972 | a tunnel has at most one open session |
| HistoryLedger.NoSessionBeforeHandshake | internal/app/tunnel_ops.go:951-971 | a session appears with an event that reports its tunnel, and its handshake if handshakes are reported |
| HistoryLedger.ClosingStep | internal/app/tunnel_ops.go:912-938 | a session closes only at an event that lacks its tunnel |
| HistoryLedger.CloseHasLastCounters | internal/app/tunnel_ops.go:876-939 | a session closes with the counters of the last event that reported its tunnel |
| HistoryLedger.MarkLabelsClose | internal/app/tunnel_ops.go:612-637 | a mark made while the session is open, and not cleared, labels its close |
| HistoryLedger.CloseReasonIs | internal/app/tunnel_ops.go:912-938 | every close is labelled: user iff a mark of its tunnel has neither been cleared nor used up by a close, else the event's own reason, and reconnect if it has none |
| HistoryLedger.ReasonIsMark | internal/app/tunnel_ops.go:612-637 | in every reachable state the cached reason is the user's iff such a mark stands |
| HistoryLedger.MarkTells | internal/app/tunnel_ops.go:612-637 | a mark labels one tunnel, keeps its counters or notes the given ones, and taking it back undoes it |
| HistoryLedger.StaleMark | internal/app/tunnel_ops.go:612-623 | after any run that leaves a tunnel without a session: a mark made then labels the close of the session that the tunnel gets next |
| HistoryLedger.UnmarkedCloses | internal/app/tunnel_ops.go:920-934 | a tunnel never marked is closed with the event's own reason, or as a reconnect |
| PfRules.BuildKillSwitchRules | internal/firewall/darwin.go:102-152 | the lines of the rules of all tunnels in sorted order, endpoints once each; refused iff an interface name or endpoint is not valid |
| PfRules.BuildDnsRules | internal/firewall/darwin.go:237-245 | the lines of the DNS rules; refused iff a server is not valid |
| PfRules.KillSwitchRulesDecide | internal/firewall/darwin.go:102-152 | with the DNS anchor empty or filled, a packet passes iff it is loopback, DHCP, on a tunnel, to an endpoint, or a query to a listed server |
| PfRules.DnsRulesAlone | internal/firewall/darwin.go:233-246 | without the kill switch only queries are restricted, to the listed servers on their interface |
| PfRules.EscapesDnsRulesExactlyWhen | internal/firewall/darwin.go:102-152 | what passes with the kill switch and not without it: exactly the queries, other than to a listed server on its interface, that are on loopback or a tunnel or to an endpoint |
| DarwinFirewall.DarwinFirewall.EnableKillSwitch | internal/firewall/darwin.go:154-208 | both anchors are again those of the state, which is that of the step; refused input changes nothing |
| DarwinFirewall.DarwinFirewall.AddKillSwitchTunnel | internal/firewall/darwin.go:253-284 | the same for one tunnel more |
| DarwinFirewall.DarwinFirewall.RemoveKillSwitchTunnel | internal/firewall/darwin.go:288-312 | the same for one tunnel less |
| DarwinFirewall.DarwinFirewall.DisableKillSwitch | internal/firewall/darwin.go:346-406 | the DNS rules move back to the main anchor, and pf goes off iff it was recorded as off and DNS protection is off too |
| DarwinFirewall.DarwinFirewall.EnableDnsProtection | internal/firewall/darwin.go:408-470 | the rules go to the sub-anchor with the kill switch and to the main one without |
| DarwinFirewall.DarwinFirewall.DisableDnsProtection | internal/firewall/darwin.go:472-506 | the anchors of the step |
| DarwinFirewall.DarwinFirewall.ReapplyDnsSubAnchorIfActive | internal/firewall/darwin.go:215-227 | the sub-anchor is filled iff DNS protection is on with a saved interface and servers |
| DarwinFirewall.DarwinFirewall.CleanUp | internal/firewall/darwin.go:519-565 | nothing left in either anchor |
| DarwinFirewall.Run | internal/firewall/darwin.go:102-565 | over every run the two anchors are a function of kill switch, tunnels and saved DNS servers alone; what pf reads in their text lets a packet through iff the calls, told from the last ones of each kind, allow it; and pf is on while a feature is |
| PfText.RenderedReads | internal/firewall/darwin.go:102-152 | the line written for a rule, read word by word, asks of every packet what the rule asks, and passes or blocks, at once or last, as the rule does |
| PfText.TextDecides | internal/firewall/darwin.go:102-152 | so the two texts decide as the rules they were written for |
| DarwinHistory.AnchorsAllow | internal/firewall/darwin.go:102-565 | with the kill switch turned on and not off since, the texts let pass lo0, DHCP, the tunnels and endpoints of the calls that added them last, and queries to the servers of the last DNS call on its interface; without it they restrict queries alone, to those servers |
| DarwinHistory.RefusedExactlyWhen | internal/firewall/darwin.go:102-470 | which calls are refused and change nothing: an interface that is not letters and digits, an endpoint or server that is no address |
| DarwinSteps.StateDecides | internal/firewall/darwin.go:102-565 | what passes in any state of a run |
| DarwinSteps.AddThenRemove | internal/firewall/darwin.go:253-312 | a new tunnel added and removed leaves the state and the lines of both anchors as they were |
| DarwinSteps.PfIsLeftOn | internal/firewall/darwin.go:346-506 | pf that was on beforehand is never left off when each Disable is called only while its flag is set |
| DarwinSteps.CallTurnsPfOff | internal/firewall/darwin.go:154-565 | a call turns pf off, when it was on before what is active was enabled, iff it is a Disable with both flags off after the last enabling found pf off |
| DarwinSteps.PfIsOnWhileNeeded | internal/firewall/darwin.go:154-565 | in every run pf is on while the kill switch or DNS protection is, and nothing is saved of DNS protection that is off |
| DarwinSteps.DisableAtOnce | internal/firewall/darwin.go:346-506 | a Disable before anything was turned on, or after a clean-up, turns pf off |
| DarwinSteps.PfIsRestored | internal/firewall/darwin.go:154-565 | a feature turned on and off, or the kill switch first and DNS protection within, leaves pf as it was found |
| DarwinSteps.PfStaysOn | internal/firewall/darwin.go:154-565 | DNS protection first and the kill switch within leaves pf on, whatever it was |
| CidrConflict.FindOverlaps | internal/diag/conflict.go:468-497 | the reports, in order |
| CidrConflict.OverlapIsSharing | internal/diag/conflict.go:524-532 | networks overlap iff they share an address |
| CidrConflict.NestedOrDisjoint | internal/diag/conflict.go:524-532 | of two prefixes one holds the other, or they are disjoint |
| CidrConflict.SuppressedExactlyWhen | internal/diag/conflict.go:510-532 | a pair is suppressed iff the new prefix lies in the existing one, is longer, and has another network address |
| CidrConflict.HostsAreNetworks | internal/diag/conflict.go:524-532 | an address of either family with all its bits as the prefix is a network of one |
| CidrConflict.TenInBits | internal/diag/conflict.go:510-532 | the address of the next row is 10.0.0.0 |
| CidrConflict.SameAddressIsReported | internal/diag/conflict.go:510-532 | 10.0.0.0/24 inside 10.0.0.0/8 is not suppressed |
| CidrConflict.SuppressedNewWins | internal/diag/conflict.go:455-467 | under longest-prefix match the existing route of a suppressed pair loses each of the new route's addresses, wherever both stand in the table |
| CidrConflict.ReportsTell | internal/diag/conflict.go:468-497 | each new route is reported at most once, iff some existing one shares an address with it and it is not the more specific with another network address, and then with the first of these |
| CidrConflict.ReportsInOrder | internal/diag/conflict.go:468-497 | the reports come in the order of the new routes |
| CidrConflict.ReportedShareAnAddress | internal/diag/conflict.go:468-497 | a reported pair shares an address |
| EndpointPick.Normalize | internal/endpoint/pick.go:145-157 | trimmed candidates without the empty and repeated ones |
| EndpointPick.NormalizedIsNormal | internal/endpoint/pick.go:145-157 | the result has neither, and each entry is trimmed |
| EndpointPick.NormalizedHas | internal/endpoint/pick.go:145-157 | it has exactly the trimmed candidates that are not empty |
| EndpointPick.NormalizedInOrder | internal/endpoint/pick.go:145-157 | what comes first stays first |
| EndpointPick.NormalStays | internal/endpoint/pick.go:145-157 | such a list is left as it is |
| EndpointPick.Best | internal/endpoint/pick.go:199-211 | the scan for the lowest latency |
| EndpointPick.BestIsFirstLowest | internal/endpoint/pick.go:199-211 | the usable candidate of the lowest latency, the first of equals |
| EndpointPick.Better | internal/endpoint/pick.go:233-265 | the decision, with defaults for options below one |
| EndpointPick.BetterSwitchesExactlyWhen | internal/endpoint/pick.go:213-265 | there is an answer iff another candidate answers and the current one is down, or at the threshold (150 ms by default) and slower by the margin (30 per cent by default); the first case is the failover |
| EndpointPick.BetterIsNothingOrBest | internal/endpoint/pick.go:199-265 | the answer is nothing or exactly the best, for distinct addresses and all options |
| EndpointPick.BetterStaysExactlyWhen | internal/endpoint/pick.go:233-265 | for distinct addresses and all options: after switching, the same measurements keep the choice iff it is trimmed or nothing replaces its trimmed form |
| EndpointPick.BetterThenStays | internal/endpoint/pick.go:145-265 | for the measurements of a normalized list, which are all there are: after switching they keep the choice |
| AgentsMerge.MergeAgentsText | internal/cli/install_skills.go:172-191 | the text step of the merge |
| AgentsMerge.MergeKeepsTheRest | internal/cli/install_skills.go:172-191 | all outside the block stays; on first insertion only newlines at the end change |
| AgentsMerge.FirstInsertion | internal/cli/install_skills.go:184-190 | without a begin marker, written out: the text without its last newlines, an empty line and the block; a text that ends in an empty line stays as it is, and an empty one gets none |
| AgentsMerge.BlockIsReplaced | internal/cli/install_skills.go:179-183 | between the first markers the block is replaced, written out |
| AgentsMerge.BlockIsAppended | internal/cli/install_skills.go:183-184 | with no end marker behind the begin marker the block follows a newline |
| AgentsMerge.MergeTwice | internal/cli/install_skills.go:172-191 | merging twice is merging once, for a text without markers or with a block |
| AgentsMerge.ExactlyOneBlock | internal/cli/install_skills.go:172-191 | around a block with nothing of the marker before or after it, the marker stands in its one place |
| AgentsMerge.IdempotentExactlyWhen | internal/cli/install_skills.go:172-191 | twice is once iff the text has no marker, or its first begin marker stands before its first end marker |
| AgentsMerge.StrayBeginLosesText | internal/cli/install_skills.go:172-191 | with a begin marker alone the second merge replaces all that followed it |
| AgentsMerge.StrayEndGrows | internal/cli/install_skills.go:172-191 | with an end marker alone every merge adds a block |
| AgentsMerge.EndBeforeBeginGrows | internal/cli/install_skills.go:172-191 | and so with an end marker before the first begin marker |
| AgentsMerge.ProgramsMarkers | internal/cli/install_skills.go:77-80 | the program's own markers are such that all this applies |
| RouteText.ExpandDarwinNetAddr | internal/diag/routes.go:508-553 | the expansion of any text |
| RouteText.NormalizeCidr | internal/diag/conflict.go:534-556 | the padding of a text with a slash |
| RouteText.ExpandUndoesElision | internal/diag/routes.go:508-553 | zero octets left out before a prefix come back |
| RouteText.ExpandIsClassful | internal/diag/routes.go:508-553 | without a prefix the number of octets gives it, and a whole address stays |
| RouteText.ExpandIsIdempotent | internal/diag/routes.go:508-553 | expanding twice is expanding once, for any text |
| RouteText.ExpansionsAgreeExactlyWhen | internal/diag/routes.go:508-553 | on one to four octets and a slash both expansions agree iff a prefix follows |
| RouteText.OthersPassThrough | internal/diag/routes.go:508-540 | a text with a colon, with more than four parts, or with a part that is empty or no number is left as it is |
| RouteText.HostRoute | internal/diag/conflict.go:534-541 | a route without a mask gets /32, and /128 if it has a colon |
| RouteText.MaskedRoute | internal/diag/conflict.go:542-556 | with a mask, zero parts are added up to four, and none with a colon |
| ScutilParser.ParseDarwinScutil | internal/diag/dnsleak.go:970-1020 | the one pass gives the reading block by block |
| ScutilParser.Flush | internal/diag/dnsleak.go:978-997 | the pending servers of a block, without zones, each valid address not seen before |
| ScutilParser.InterfaceLineMoves | internal/diag/dnsleak.go:998-1017 | where the interface line stands in its block makes no difference |
| ScutilParser.ParsedTells | internal/diag/dnsleak.go:970-1020 | each valid address once, from the first block that lists it, with the interface of that block |
| ScutilParser.BlockIsRead | internal/diag/dnsleak.go:970-1020 | one more block as scutil writes it, indented, with a header of either kind, servers with or without a zone and perhaps an interface: its valid servers follow in order, without zones, with that interface or none |
| ScutilParser.OtherLineIsIgnored | internal/diag/dnsleak.go:998-1017 | a line of any other kind adds nothing |

## Left out

- FieldEditor.SetTunnelFields: for a model with two keys that differ in case only, the result depends on Go's map order, and only whether it is an error is stated.
- FieldEditorLaws.DocumentOfEdited: model values of several lines, whose lines become lines of the text, headers included, and keys with space around them are outside.
- FieldEditorLaws.SetKeepsOtherLines: values of several lines, and keys with space around them, are outside; an edit may add the lines of such a value anew.
- FieldEditorLaws.SetIsIdempotent: the same values and keys are outside, for the same reason.
- FieldEditorLaws.BlockEditIsIdempotent: the same values and keys are outside.
- FieldSetting.SetAgreesExactlyWhen: texts with a byte order mark and texts with bracketed lines that are no known headers are outside, since the field editor treats both unlike the parser.
- FieldSaving.SavingKeepsExactlyWhen: the same texts are outside, and those whose own fields the editor refuses to save or that spell a key in two ways.
- HookParsing.ParseAfterSet: commands of several lines or with a NUL are outside; SetAgreesExactlyWhen covers them.
- HookParsing.AcceptedHasSection: texts with a byte order mark are outside; the hook editor does not strip it.
- HookReading.ReadAgreesExactlyWhen: the same texts are outside as of HookParsing.SetAgreesExactlyWhen.
- ConfigMeaning.ProtocolExactlyWhen: texts with a byte order mark or with bracketed lines that are no known headers are outside.
- ConfigMeaning.FirstBadLine: texts of exactly the largest size are outside; SizesTell is about them.
- HookParsing.SetAgreesExactlyWhen: texts with a byte order mark and texts whose bracketed lines are not all known headers are outside, since the hook editor treats both unlike the parser; commands are trimmed, as the caller trims them.
- HistoryLaws.FastPathIsSound: names with a NUL or a semicolon are outside; the storage admits neither.
- DarwinFirewall.Run: the text is read for calls whose ports are words and a net.ParseIP that takes no text with a blank and not the word any; pfctl is taken to succeed; its failures, and the file that remembers whether pf was on, are not modelled.
- WindowsFirewall.Firewall.CloseSession: closing the engine is taken to succeed.
- WindowsFirewall.Firewall.DisableDnsProtection: the early return for tracked ids without a session is not a branch of its own, since no reachable state has them.
- WindowsFirewall.Firewall.EnsureSession: provider and sublayer registration are one call that fails or succeeds.
- PfText.RenderedReads: of pf's syntax the words that these rules use are read, and ports are compared as texts.
- Text is one `char` for each byte; white space and letter case are ASCII, without Unicode folding.
- Configurations are values: the parser's pointer into the peer list is the last peer of the list, and aliasing is not modelled. Name, scripts consent and interface binding, which the text does not carry, are no fields.
- The fields of the interface struct are grouped by type under the key that sets them.
- Interface lookup, net.ParseIP, net.SplitHostPort, net.ParseCIDR, the if_index pattern and the VPN name test are parameters; sort.Strings and the other string functions are modelled as functions.
- 4-in-6 addresses: an address is of one family.
- Latency is a real number; rounding is not modelled.
- The mutexes and goroutines: every method runs under its lock, and status events arrive one at a time.
- internal/firewall/linux.go, which is nft text, and the orphaned-filter sweep and crash recovery, which are I/O.
- CloseHistorySessions, which ends a process, and the history store's retention.
- The validator, script references and invocation, the probe plan, the choice of local interfaces for conflicts, latency probing: easy members or I/O.
- Error message texts, logging, files, the GUI, the network and the command line.
