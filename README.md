# distributive checks in Dafny

distributive is a system-state assertion tool. Each of its checks takes ordered
string parameters and answers one yes/no question about the host with an exit
code and a diagnostic message. `(0, "")` means the check passed. A failure
usually comes from `genericError`, which names what was wanted and lists what
was found. A run-stopping error (`log.Fatal`, or a Go runtime panic) ends the
whole run instead.

This project models the checks of `network.go`, `users-and-groups.go` and
`docker.go`, together with the parsing and selection that turn OS output into
values:

- the listening ports of the kernel TCP table (`/proc/net/tcp`);
- interface existence, state and addresses;
- the default gateway and the columns of the kernel IP routing table
  (`route -n`);
- the groups of `/etc/group`: existence, membership and id;
- the string fields of a user record;
- Docker images (`docker images`);
- running containers (`docker ps -a`).

Every data source is a parameter:

- the local-address column of the TCP table;
- the interface list, as names, flag bits and already rendered addresses;
- the tokenized rows of `route -n`, `docker images` and `docker ps -a`;
- the text of `/etc/group`;
- the user-directory lookup;
- the result of running `docker ps -a`.

A check returns `Helpers.Outcome`, which is `Exit(code, message)` or
`Fatal(reason)`.

Modules:

- `Text`: splitting and joining on one character, and substring search
  (`strings.Contains`). It also has `strconv.ParseInt` for bases 10 and 16 and
  decimal rendering (`fmt.Sprint`).
- `Helpers`: the result types, plus stand-ins for the shared helpers whose
  source is not part of this model. These are `genericError`, `strIn`,
  `getColumnNoHeader`/`commandColumnNoHeader`, `separateString` and
  `parseMyInt`. Their bodies give the behaviour the checks rely on and no more.
- `Network`, `UsersAndGroups` and `Docker`: one module per source file.

Each loop of the source is a method with a `for` loop. It is proved equal to a
specification function or shown to meet the stated property directly. The
properties of each specification function are proved as lemmas.

In `getGatewayInterface`, the guard is `len(names) < i` (network.go:200). It
lets `i == len(names)` through, and the index expression that follows then
panics. Neither outcome can happen as written, because `names` is the same
column as `ips` (see Findings). The model keeps the guard as written: the
guard's `log.Fatal()` gives an empty reason, and the panic gives an
index-out-of-range reason.

## Model

| member | source | states |
|---|---|---|
| Text.Split | users-and-groups.go:33 | splitting on a literal character always gives at least one field, and no field contains the separator |
| Text.JoinSplit | users-and-groups.go:33 | joining the fields of a split with the separator gives the original text back |
| Text.SplitJoin | users-and-groups.go:23-25 | splitting joined fields that are free of the separator recovers exactly those fields |
| Text.SplitNoSep | users-and-groups.go:33 | a text without the separator splits into itself alone |
| Text.Contains | docker.go:33 | strings.Contains holds exactly when the substring occurs at some index |
| Text.ParseInt | users-and-groups.go:29 | a successful strconv.ParseInt yields a value within the signed 64-bit range |
| Text.ParseIntStrict | users-and-groups.go:29 | strconv.ParseInt accepts exactly a sign ("", "+" or "-") followed by one or more digits of the base whose value fits in 64 bits, and returns that value; every other text is an error |
| Text.ParseIntExamples | network.go:30 | "12a" is rejected in base 10, "+5" gives 5, and base 16 reads "1f90" as 8080 |
| Text.DigitsValueBound | network.go:30 | n digits of a base give a value below base^n |
| Text.NatToStringValue | network.go:58 | the decimal rendering of a natural number has that value |
| Text.ParseIntToString | network.go:58-60 | parsing the decimal rendering of any 64-bit integer gives that integer back |
| Text.IntToStringInjective | network.go:58-60 | different 64-bit integers render differently |
| Helpers.GenericError | network.go:89 | the generic diagnostic is a failure with exit code 1 and a non-empty message |
| Helpers.GenericErrorNamesAll | network.go:60 | the generic diagnostic names the wanted value and every value found |
| Helpers.ColumnNoHeader | network.go:16 | the column below the header is shorter than the table; it holds a value exactly when some non-header row has it in that field |
| Helpers.SeparateString | users-and-groups.go:23-25 | tokenizing always gives at least one row, and every row has at least one field |
| Helpers.SeparateStringRows | users-and-groups.go:23-25 | separateString gives one row per line, and each row joins back to its line |
| Helpers.SeparateStringOneRow | users-and-groups.go:23-25 | one line of fields free of both separators tokenizes into exactly that row |
| Helpers.ParseMyInt | network.go:48 | a parsed numeric parameter lies within the signed 64-bit range |
| Helpers.ParseMyIntStrict | users-and-groups.go:90 | a numeric parameter is accepted exactly when it is a signed decimal digit string that fits in 64 bits, and then has that value; otherwise the stop names the parameter |
| Network.FindPort | network.go:17-22 | there is a port exactly when `:XXXX` with four upper-case hex digits occurs; the port is the four digits of the leftmost such match |
| Network.HexPortsWellFormed | network.go:18-24 | getHexPorts yields no more ports than there are addresses, each exactly four upper-case hex digits |
| Network.HexPortsAppend | network.go:18-24 | the ports of concatenated address lists are the ports of each list in turn, so address order is kept |
| Network.HexPortsSkipsNoMatch | network.go:20 | an address without a match contributes nothing, wherever it stands |
| Network.HexPortsSingle | network.go:19-22 | an address whose leftmost match starts at i contributes exactly the four characters after that colon |
| Network.GetHexPorts | network.go:14-26 | the loop yields exactly the ports of the address sequence, in order |
| Network.StrHexToDecimal | network.go:29-35 | a converted value lies within the signed 64-bit range |
| Network.StrHexToDecimalStrict | network.go:29-35 | strHexToDecimal succeeds exactly on a signed hexadecimal digit string that fits in 64 bits, with its value; otherwise the run stops with a reason naming the text |
| Network.HexPortValue | network.go:29-35 | strHexToDecimal never stops the run on a port that getHexPorts yields, and the value lies in 0..65535 |
| Network.StrHexToDecimalExample | network.go:29-35 | "1F90" converts to 8080 |
| Network.OpenPortsValues | network.go:38-43 | there is one open port per hex port, in order, each what strHexToDecimal gives and within 0..65535 |
| Network.GetOpenPorts | network.go:38-43 | the loop yields exactly the converted ports |
| Network.DecimalStringsAt | network.go:56-59 | each open port is rendered in decimal at its own position |
| Network.DecimalStringsRoundTrip | network.go:56-60 | each rendered port parses back to the open port at the same position |
| Network.OpenPortsExample | network.go:14-43 | the local address 0100007F:1F90 gives the single open port 8080 |
| Network.Port | network.go:47-61 | a port parameter that is not a signed decimal 64-bit integer (see Helpers.ParseMyIntStrict) stops the run; otherwise the check passes exactly when the port is open, and a failure lists every open port in decimal |
| Network.GetInterfaceNames | network.go:76-81 | the names of all interfaces, one per interface, in order |
| Network.Interface | network.go:74-90 | passes exactly when some interface has the name; a failure lists every interface name |
| Network.UpNames | network.go:95-103 | a name is listed exactly when an interface with that name has the up flag set |
| Network.GetUpInterfaces | network.go:95-103 | the loop yields exactly the names of the up interfaces, in order |
| Network.Up | network.go:93-110 | passes exactly when an interface with the name is up; a failure lists the up interfaces |
| Network.FirstNamed | network.go:120-121 | the first interface with the name, or none when no interface has it |
| Network.InterfaceIPsFirstMatch | network.go:114-149 | an IP version other than 4 or 6 stops the run; with no interface of that name the list is empty; otherwise the first such interface decides; if its addresses cannot be read the run stops, else they are its address renderings for that version, in order |
| Network.GetInterfaceIPs | network.go:114-149 | the loop gives exactly the address list, or the fatal stop, described above |
| Network.GetIpWorker | network.go:152-158 | a fatal stop of getInterfaceIPs passes through; otherwise passes exactly when the address is listed, and a failure lists the addresses |
| Network.Ip4 | network.go:161-163 | passes exactly when the first interface with the name lists the IPv4 address; it stops the run exactly when getInterfaceIPs does |
| Network.Ip6 | network.go:166-168 | passes exactly when the first interface with the name lists the IPv6 address; it stops the run exactly when getInterfaceIPs does |
| Network.RoutingTableColumn | network.go:319-322 | the column loses its first entry; an empty column panics on the slice |
| Network.RoutingTableColumnRows | network.go:319-322 | when every row below the title has the field, the column holds that field of each route line, in row order |
| Network.RoutingTableMatch | network.go:328-334 | passes exactly when the string is in the column; a failure lists the column; a panicking column stops the run |
| Network.RoutingTableMatchRows | network.go:328-334 | on a well-formed table, passes exactly when some route line has the string in that field |
| Network.RoutingTableDestination | network.go:338-340 | passes exactly when the parameter is in the Destination column (0) |
| Network.RoutingTableInterface | network.go:344-346 | passes exactly when the parameter is in the Iface column (7) |
| Network.RoutingTableGateway | network.go:350-352 | passes exactly when the parameter is in the Gateway column (1) |
| Network.FirstGateway | network.go:175-179 | the first gateway entry that is not 0.0.0.0, or none when every entry is 0.0.0.0 |
| Network.DefaultGateway | network.go:173-181 | the default gateway is 0.0.0.0 exactly when every entry is; otherwise it is the first entry that is not |
| Network.GetGatewayAddress | network.go:173-181 | the loop returns the default gateway |
| Network.Gateway | network.go:171-189 | passes exactly when the parameter is the default gateway; a failure lists that gateway |
| Network.GatewayInterfaceName | network.go:195-210 | with no gateway the result is ""; otherwise it is the name at the first gateway's position, or a fatal stop exactly when the name column does not reach that position |
| Network.GetGatewayInterface | network.go:198-209 | the loop gives the result just described |
| Network.GatewayInterface | network.go:192-218 | the check as written, with the names read from the Gateway column |
| Network.GatewayInterfaceAsWrittenComparesAddress | network.go:196-197 | as written, the check passes on a well-formed table exactly for the default gateway's IP address, or for "" when there is no gateway |
| Network.GatewayInterfaceCorrected | network.go:192-218 | the check with the names read from the Iface column |
| Network.GatewayInterfaceCorrectedNamesInterface | network.go:193-206 | corrected, the check passes exactly for the interface of the first route line with a gateway, or for "" when there is none |
| Network.GatewayRowsAgree | network.go:196-199 | the first non-zero gateway entry is the Gateway field of the first route line that has one |
| Network.GatewayInterfaceExample | network.go:196-197 | on a table with the default route via 192.168.1.1 on eth0: as written, "eth0" is rejected and "192.168.1.1" accepted; corrected, "eth0" is accepted |
| UsersAndGroups.ParseGroupLine | users-and-groups.go:29-34 | a parsed group is named by field 0, has a 64-bit gid and at least one (possibly empty) user entry |
| UsersAndGroups.ParseGroupLineFields | users-and-groups.go:28-34 | a line parses exactly when its gid parses, else the run stops naming the group; the group carries field 0 and the gid, and its users are comma-free and join back to field 3 |
| UsersAndGroups.Kept | users-and-groups.go:28 | only lines with more than three fields are kept |
| UsersAndGroups.KeptMembers | users-and-groups.go:28 | a line is kept exactly when it has more than three fields |
| UsersAndGroups.ParseGroupsKept | users-and-groups.go:27-37 | on success there is one group per kept line, in line order, each parsed from its line |
| UsersAndGroups.ParseGroupsFails | users-and-groups.go:29-32 | getGroups stops the run exactly when some line of more than three fields has a gid that does not parse |
| UsersAndGroups.ParseGroupsStopsAt | users-and-groups.go:30-32 | once a prefix of the lines stops the run, later lines change nothing |
| UsersAndGroups.GetGroups | users-and-groups.go:21-39 | the loop gives exactly the parse of the tokenized file |
| UsersAndGroups.FindGroup | users-and-groups.go:57-58 | the first group with the name, or none when no group has it |
| UsersAndGroups.LookupGroup | users-and-groups.go:76-77 | the search loop finds the first group with the name |
| UsersAndGroups.GroupNotFound | users-and-groups.go:43-50 | the diagnostic lists every group name, in order; a fatal stop of getGroups passes through |
| UsersAndGroups.GroupExists | users-and-groups.go:53-69 | passes exactly when some group has the name; a failure lists every group name |
| UsersAndGroups.UserInGroupFirstMatch | users-and-groups.go:76-84 | the first group with the name decides: pass exactly when it lists the user, else a failure listing its users; with no such group, groupNotFound |
| UsersAndGroups.FindUserInGroup | users-and-groups.go:75-84 | the loop gives exactly that outcome |
| UsersAndGroups.UserInGroup | users-and-groups.go:72-85 | the check as written: user and group both from parameter 0 |
| UsersAndGroups.UserInGroupCorrected | users-and-groups.go:72-85 | the check with the group from parameter 1 |
| UsersAndGroups.ExampleGroups | users-and-groups.go:21-39 | the file "sudo:x:27:alice" gives the group sudo, id 27, with the single member alice |
| UsersAndGroups.UserInGroupExample | users-and-groups.go:73-84 | on that file, user alice in group sudo passes and bob fails listing alice; looking for group "alice", as the code does, fails with "Group not found" listing sudo |
| UsersAndGroups.GroupId | users-and-groups.go:88-102 | an id parameter that is not a signed decimal 64-bit integer (see Helpers.ParseMyIntStrict) stops the run; otherwise the first group with the name passes exactly when its id is the given one, and a failure shows its id in decimal; a missing group gives groupNotFound |
| UsersAndGroups.FieldByName | users-and-groups.go:128-137 | exactly the five string fields Uid, Gid, Username, Name and HomeDir are found, and a found value is one of the record's fields |
| UsersAndGroups.GenericUserField | users-and-groups.go:121-155 | a user not found fails with "User does not exist"; a field name that is not a string field stops the run; otherwise the check passes exactly when the field has the value, and a failure has code 1 and names the field, the user and the value |
| UsersAndGroups.MismatchMessageNamesAll | users-and-groups.go:151-153 | the mismatch message contains the field name, the user and the given value |
| UsersAndGroups.UserExists | users-and-groups.go:159-165 | passes exactly when the lookup finds the user; otherwise "User does not exist: " and the user |
| UsersAndGroups.UserHasUID | users-and-groups.go:169-171 | never stops the run; passes exactly when the user exists and its Uid is the given value |
| UsersAndGroups.UserHasGID | users-and-groups.go:175-177 | never stops the run; passes exactly when the user exists and its Gid is the given value |
| UsersAndGroups.UserHasUsername | users-and-groups.go:181-183 | never stops the run; passes exactly when the user exists and its Username is the given value |
| UsersAndGroups.UserHasName | users-and-groups.go:187-189 | never stops the run; passes exactly when the user exists and its Name is the given value |
| UsersAndGroups.UserHasHomeDir | users-and-groups.go:193-195 | never stops the run; passes exactly when the user exists and its HomeDir is the given value |
| Docker.DockerImage | docker.go:11-23 | passes exactly when some row of `docker images` below the header has the name as its first field; a failure lists the images found |
| Docker.DockerImageExample | docker.go:11-23 | with a row for ubuntu: "ubuntu" passes, "nonexistent-image" fails listing ubuntu, and the header's REPOSITORY is not taken for an image |
| Docker.DockerImageDiagnostic | docker.go:22 | a failing image check has code 1 and names the wanted image and every image found |
| Docker.Running | docker.go:47-51 | the running list is no longer than the statuses, and every entry is a name |
| Docker.UpIndicesExactly | docker.go:47-48 | a position is kept exactly when its status contains "Up" and the names column reaches it; kept positions increase strictly |
| Docker.RunningAtUpIndices | docker.go:47-50 | the running list is the names at the kept positions, one for one and in status order |
| Docker.RunningMembers | docker.go:47-50 | a name is running exactly when it stands at a position whose status contains "Up" |
| Docker.RunningBound | docker.go:48 | the running list is no longer than the names column |
| Docker.FilterRunning | docker.go:47-52 | the loop yields exactly the running-container filter |
| Docker.GetRunningContainers | docker.go:29-53 | a failed command stops the run: with the permission message when its output contains "permission denied", else with the generic error text; no rows give no containers; otherwise the filter over fields 1 and 4 below the header |
| Docker.DockerRunning | docker.go:27-60 | a failed `docker ps -a` stops the run with the messages above; otherwise passes exactly when the name is running, and a failure lists the running containers |

## Left out

- Reading files and running commands are not modelled. This covers `fileToString`, `exec.Command`, `CombinedOutput`, `route -n`, `docker images` and `docker ps -a`. Their outputs are parameters.
- Tokenizing command output is not modelled: `stringToSlice`, `stringToSliceMultispace` and the tokenizing half of `commandColumnNoHeader` are not part of this model. Their result is a parameter: the rows of `route -n` and `docker images`, the local-address column of the TCP table, and the `tokenize` function of `Docker.GetRunningContainers`.
- `net.Interfaces()`, its error, `iface.Addrs()` and the rendering of an IP (`To4().String()`, `To16().String()`) are foreign library calls. The interface list and each address's two renderings are inputs. `Addrs()` failing is an input too (`addrs == None`). The address type switch is not modelled.
- `Host`, `canConnect`, `getConnectionWorker`, `TCP`, `UDP`, `tcpTimeout` and `udpTimeout` are left out. They are DNS lookups, network dials and wall-clock timeouts.
- `lookupUser` (`user.LookupId`, then `user.Lookup`) is an OS directory lookup. It becomes the `Directory` parameter, which gives the user or none.
- The reflection in `userHasField` is replaced by `FieldByName` over the five string fields of a user record.
- Helpers.GenericError: the source of `genericError` is not part of this model. The rendering is a stand-in; only the exit code 1 and that the message names the wanted value and every found value are relied on (GenericErrorNamesAll).
- Helpers.ParseMyInt: the source of `parseMyInt` is not part of this model. It is modelled as a strict decimal `strconv.ParseInt` (ParseMyIntStrict), with a stand-in message on failure.
- Helpers.ColumnNoHeader: the source of `getColumnNoHeader` is not part of this model. A row too short for the index contributes nothing; a real panic on such a row is not modelled.
- Fatal reasons that Go ends with a library error's text (`err.Error()`) stop just before it: `StrHexToDecimal` ends with ":\n\t" (network.go:32), and `InterfaceIPs`/`GetInterfaceIPs` end with "\n\tError: " (network.go:126). The `docker ps -a` error text is the `errorText` input of `GetRunningContainers`. The unreadable-address reason is thus fixed text plus the interface name. `strHexToDecimal`'s error branch is proved unreachable from `getOpenPorts`.
- The reflection stop of `GenericUserField` renders the field kind as "invalid" (users-and-groups.go:134): every field of the user record is a string, so a name that is not a string field names no field.
- Every check indexes its parameters (`parameters[0]`, `parameters[1]`) without a guard (network.go:48, 162, 182; users-and-groups.go:73, 90; docker.go:17) and would panic on a shorter slice. The dispatch layer that builds the parameter sequence supplies the number of parameters each check takes; it is not part of this model, so each check requires that count, and the index-out-of-range panic is not modelled.
- The panic reasons ("runtime error: ...") are stand-ins for Go's. Only the fact of the stop is relied on.
- Go's `int` is 64-bit here. Parsed gids and ports are kept within the signed 64-bit range by `ParseInt`, so no wrap-around arises.
- Network.Ip4: its contract states when it passes and when it stops the run. The failure message is stated one level down, on Network.GetIpWorker.
- Network.Ip6: as for Ip4, the failure message is stated on Network.GetIpWorker.
- Network.RoutingTableDestination: its contract states only when it passes. The failure message and the fatal case are stated on Network.RoutingTableMatch.
- Network.RoutingTableInterface: as for RoutingTableDestination.
- Network.RoutingTableGateway: as for RoutingTableDestination.
- UsersAndGroups.UserHasUID: its contract states when it passes. The failure messages are stated on UsersAndGroups.GenericUserField.
- UsersAndGroups.UserHasGID: as for UserHasUID.
- UsersAndGroups.UserHasUsername: as for UserHasUID.
- UsersAndGroups.UserHasName: as for UserHasUID.
- UsersAndGroups.UserHasHomeDir: as for UserHasUID.

## Findings

| source | as written | input that shows it | evidently intended | confidence | as-written member | corrected member |
|---|---|---|---|---|---|---|
| users-and-groups.go:73-74 | `group := parameters[0]`: the group name is read from the same parameter as the user | /etc/group `sudo:x:27:alice`, parameters `["alice", "sudo"]`: the check looks for a group named "alice" and fails with "Group not found", although alice is in sudo | `group := parameters[1]` | high; not executed | UsersAndGroups.UserInGroup, UsersAndGroups.UserInGroupExample | UsersAndGroups.UserInGroupCorrected, UsersAndGroups.UserInGroupFirstMatch |
| network.go:196-197 | `names := routingTableColumn(1)`: the "interface names" are read from the Gateway column, the same column as `ips` | a `route -n` table whose default route goes via 192.168.1.1 on eth0, parameter `["eth0"]`: the interface found is "192.168.1.1", so the check fails; `["192.168.1.1"]` passes | `names := routingTableColumn(7)`, the Iface column | high; not executed | Network.GatewayInterface, Network.GatewayInterfaceAsWrittenComparesAddress, Network.GatewayInterfaceExample | Network.GatewayInterfaceCorrected, Network.GatewayInterfaceCorrectedNamesInterface |
