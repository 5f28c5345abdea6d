# openrussh-client, verified

This project models the parts of openrussh-client that decide something: how a shell command is
printed, which host keys are trusted, which hosts a connection goes through, and how each of them is
authenticated. Every model is proved against a specification that does not look at the code.

- **Printing shell commands** (`Escape`, `Printer`, `CommandRun`). A typestate builder appends quoted
  words, assignments, redirects, connectors, parameter expansions and nested command substitutions to
  one buffer. `Shell` is a reference reader for the POSIX shell command language (IEEE Std 1003.1-2017,
  XCU, sections 2.2, 2.3, 2.6.2, 2.6.3, 2.7 and 2.10; `$'...'` from section 2.2.4 of POSIX.1-2024),
  written from the standard and knowing nothing of the printer; `Braces` finds the brace that ends an
  expansion. `ReadBack` and `ReadTree` prove that the reader undoes the printer, at any nesting depth and
  in both quote modes. A completed run is read as exactly what its calls mean **if and only if** no string
  holds a NUL byte, every expansion text is ended by the brace printed after it, descriptors have no more
  digits than the shell takes, and they are duplicated only by `<` or `>`.

  This holds for every `Shell.Dialect`, that is, whatever the standard leaves to the shell: how many hex
  digits beyond two it reads after `\x`; how many digits beyond one a descriptor may have (section 2.7
  promises 0 to 9 only); and where it ends an expansion whose text `Braces.Follow` does not follow, because
  it holds a command or arithmetic substitution, or, against section 2.2.3, an unescaped `{` or a single
  quote that does not come in a pair around plain text. For every other text, with operators, quotes,
  backslashes and nested expansions, scanning the text and its brace tells (`Shell.EnclosesIsClosed`).
  Whether the text between the braces is a valid expression is not checked. Since several texts are read
  alike, `Documented` also states the exact text of every kind of call, and of raw bytes.
- **The known_hosts index** (`HostGlob`, `KnownHosts`, `TrustDecisions`, `PreferredAlgs`). Entries are
  split, sorted and searched by binary search; an iterator over the sorted array derives the algorithm
  preference. All results equal those of a scan of the unsorted lines, so they do not depend on the
  order of the file.
- **ProxyJump and connecting** (`ProxyJump`, `Connect`). A loop builds the bastion list backwards, an
  iterator reads it forwards, and each hop is reached through the one before. The result refines a
  recursive route; it is stated exactly when the loop fails, when it returns a chain and after how many
  iterations. Among finitely many hosts it runs for ever iff the path comes back to a host.
- **The authentication stack** (`AuthStack`) and **the child's channel** (`ChildIo`).

Text is a sequence of characters below 256, each standing for one byte of the UTF-8 string, so ordinary
strings and raw bytes share one type; in `HostGlob` and `ProxyJump` a character is a Unicode character.
Pure code is modelled by functions; code that appends to a buffer, loops or updates fields is modelled
by methods and classes whose contracts tie them to those functions. What the original asks of others is
a parameter: the configuration lookup, key file types, HMAC, the glob library's answer for patterns with
`**`, certificate validation, and the answers of the network (`Connect.Oracle`).

The code promises less than its types or its documentation suggest in three places, each stated exactly
and with a concrete input: without the leading `none` method the stack loses its first agent method when
the first usable identity is a private key (`AuthStack.StackIsIntended`,
`AuthStack.FirstAgentMethodIsLost`); a command with `>>&2`, with an expansion text such as `a}b`, or with
a NUL byte in a string is not read back (`CommandRun.CommandReadsBack` and three concrete runs); and
a ProxyJump path that comes back to a host is followed for ever (`ProxyJump.ReturnsUnlessPathComesBack`,
`ProxyJump.SelfJumpNeverReturns`).

## Model

| member | source | states |
|---|---|---|
| CommandRun.CommandReadsBack | src/process/cmd.rs:152-407 | A shell of any dialect reads the buffer of any completed run as exactly the script the calls stand for iff the run is faithful |
| CommandRun.ReadCalls | src/process/cmd.rs:152-382 | After any accepted calls, reading what was printed leaves the reader with the commands and elements those calls mean, whatever follows |
| CommandRun.BuildersAgree | src/process/escape/cmd.rs:142-251 | For calls both builders have, in any order `Command` accepts, the `Then` tree has the same typestate, text and meaning as the `Command` run |
| CommandRun.BuildersShareConditions | src/process/escape/cmd.rs:142-251 | The tree is well typed, and faithful, iff the run is |
| CommandRun.ExpandPrintsCommand | src/process/escape/cmd.rs:253-263 | A completed `ExpandCommand` prints `$(`, the buffer `Command` builds for the same calls, `)`, and means a substitution of that script |
| CommandRun.AppendToDescriptorIsUnreadable | src/process/cmd.rs:114-117 | A concrete run with `>>&2` is not read back |
| CommandRun.ClosingBraceIsMisread | src/process/escape/env.rs:25-35 | A concrete run with the expansion text `a}b`, whose own brace comes first, is not read back |
| CommandRun.ExpressionsAreFaithful | src/process/escape/env.rs:5-8 | Names, closed expressions, and closed expressions nested as the default of a name, are always faithful |
| Shell.EnclosesIsClosed | src/process/escape/env.rs:25-35 | If the text can be followed, an expansion is ended by its own brace iff a scan of the text and that brace closes there and no earlier |
| Braces.ClosedIsLocal | src/process/escape/env.rs:25-35 | What is printed after the matching brace does not change which brace matches |
| Braces.PrefixIsOpen | src/process/escape/env.rs:25-35 | No shorter text is closed |
| Braces.NestedDefaultIsClosed | src/process/escape/env.rs:5-8 | A closed text is closed again as the default value of another expansion, to any depth |
| Braces.EscapedIsClosed | src/process/escape/env.rs:5-8 | An escaped character, a brace too, does not end the expansion |
| Braces.QuotedIsClosed | src/process/escape/env.rs:5-8 | A pair of single quotes around plain text does not matter |
| Braces.VariableIsClosed | src/process/escape/env.rs:5-8 | A variable inside the text does not matter |
| CommandRun.NulIsUnreadable | src/process/escape/mod.rs:88-126 | A concrete run with a NUL byte in a string is not read back |
| CommandRun.RawBytesAreFaithful | src/process/escape/str.rs:57-104 | Raw bytes are always faithful, and what they mean holds no NUL |
| CommandRun.OneProgramPerCommand | src/process/cmd.rs:150-407 | In every run the typestate accepts, there is one program name for each command |
| Documented.StringWord | src/process/mod.rs:127-137 | A word without special characters is printed between single quotes |
| Documented.TextAndExpansion | src/process/escape/tuple.rs:10-23 | A text and an expansion are printed between double quotes, one after the other |
| Documented.WordTexts | src/process/cmd.rs:224-255 | The exact text of a program name and an argument |
| Documented.ArgumentsText | src/process/cmd.rs:258-267 | The exact text of several arguments |
| Documented.AssignmentText | src/process/mod.rs:95-125 | The exact text of an assignment, or nothing |
| Documented.RedirectTexts | src/process/mod.rs:139-178 | The exact texts of redirects to paths and descriptors |
| Documented.RawAsciiIsText | src/process/escape/str.rs:66-73 | Printable ASCII bytes are printed like a string |
| Documented.RawRunIsEncoded | src/process/escape/str.rs:74-102 | All other bytes but NUL are printed in one `$'...'`, outside the surrounding quotes, in lower-case hexadecimal |
| Escape.RawIsAscii | src/process/escape/str.rs:66-102 | Whatever the bytes are, what is printed for them is printable ASCII |
| CommandRun.Command.constructor | src/process/cmd.rs:233-238 | A new builder has an empty buffer and no calls |
| CommandRun.Command.Env | src/process/cmd.rs:177-180 | Appends the printed assignment and records the call |
| CommandRun.Command.Envs | src/process/cmd.rs:183-192 | Appends every printed assignment in order |
| CommandRun.Command.Redirect | src/process/cmd.rs:211-214 | Appends the printed redirect, before or after the program name |
| CommandRun.Command.Prog | src/process/cmd.rs:224-230 | Appends the program word; arguments may follow |
| CommandRun.Command.Arg | src/process/cmd.rs:252-255 | Appends one word |
| CommandRun.Command.Args | src/process/cmd.rs:258-267 | Appends every word in order |
| CommandRun.Command.And | src/process/cmd.rs:303-310 | Appends the connector; a program name must follow |
| CommandRun.Command.Or | src/process/cmd.rs:324-331 | Appends the connector; a program name must follow |
| CommandRun.Command.Pipe | src/process/cmd.rs:347-354 | Appends the connector; a program name must follow |
| CommandRun.Command.Complete | src/process/cmd.rs:370-381 | Ends the command by `&` or `;` |
| CommandRun.Command.Chain | src/process/cmd.rs:402-407 | Goes on after a completed command, printing nothing |
| CommandRun.Command.AsStr | src/process/cmd.rs:422-424 | The string of a completed builder is read as its calls iff they are faithful |
| ReadTree.ReadArg | src/process/escape/mod.rs:185-196 | Every argument starts and ends in the same quotes and adds exactly its meaning, at any nesting depth |
| ReadTree.ReadQuoted | src/process/mod.rs:127-137 | With the quotes picked by `need_double`, an argument is one whole word with its meaning |
| ReadTree.SingleQuotesMeanLiteral | src/process/escape/tuple.rs:10-13 | Single quotes are picked only for values without expansions, through tuples and concatenations |
| ReadTree.DoubleQuotesMeanExpansion | src/process/escape/tuple.rs:5-13 | Conversely, double quotes are picked only for values with expansions, apart from empty concatenations |
| ReadTree.MeaningIsQuoted | src/process/mod.rs:127-137 | Every character and expansion of a printed word is read as quoted, so it is neither split nor matched against files |
| ReadTree.ReadExpand | src/process/escape/cmd.rs:258-262 | `$(...)` inside double quotes is read as a substitution of the inner script |
| ReadTree.PartStarts | src/process/escape/cmd.rs:259-260 | No part prints a leading parenthesis, so `$(` is never taken for arithmetic |
| ReadTree.PartPrints | src/process/escape/cmd.rs:247-250 | A part that moves the typestate on prints something |
| ReadTree.ReadPart | src/process/escape/cmd.rs:78-140 | Every part, and every tree of parts, is read as the commands and elements it means |
| ReadTree.ReadEnv | src/process/mod.rs:95-125 | A printed assignment is read as an assignment of the value to the cut name; an ignored one prints nothing |
| ReadTree.KeyPrefixIsLongestName | src/process/mod.rs:96-115 | A key is dropped iff it does not start like a name, else cut to its longest prefix that is one |
| ReadTree.ReadRedir | src/process/mod.rs:139-178 | A printed redirect is read with its descriptor, operator and target; `Stderr` is descriptor 2 |
| ReadTree.ReadTarget | src/process/cmd.rs:71-92 | Paths are read as one word, duplicated descriptors as their number |
| ReadTree.FormedPart | src/process/cmd.rs:112-117 | Conversely, a part whose meaning the reader could return is faithful |
| ReadTree.FormedArg | src/process/escape/env.rs:5-8 | Conversely, an argument whose meaning the reader could return is faithful |
| ReadBack.ReadText | src/process/escape/mod.rs:88-126 | Escaped text is read back as the text, in either quotes, ending in the same quotes |
| Escape.EscapeTextConcat | src/process/escape/mod.rs:88-126 | Escaping is a homomorphism over concatenation |
| Escape.PiecesAreOneText | src/process/escape/mod.rs:155-179 | The text of a formatted value does not depend on how the formatter splits its calls |
| ReadBack.ReadRaw | src/process/escape/str.rs:57-104 | Raw bytes are read back without their NUL bytes, from either value of the `encoding` flag, for any dialect |
| ReadBack.ReadRawByte | src/process/escape/str.rs:66-98 | One step of the flag machine adds exactly that byte and keeps the reader in the matching state |
| ReadBack.RawContinues | src/process/escape/str.rs:66-102 | An encoded byte is followed by a backslash or a quote |
| Printer.SplitIsPerCharacter | src/process/escape/mod.rs:88-99 | Splitting at single quotes gives the text of escaping every character |
| Printer.SplitInclusiveIsPerCharacter | src/process/escape/mod.rs:101-114 | Splitting after special characters gives the text of escaping every character |
| Printer.Escaper.EscapeStrSingle | src/process/escape/mod.rs:88-99 | Appends the escaped text |
| Printer.Escaper.EscapeStrDouble | src/process/escape/mod.rs:101-114 | Appends the escaped text |
| Printer.Escaper.EscapeStr | src/process/escape/mod.rs:121-126 | Appends the escaped text for the surrounding quotes |
| Printer.Escaper.WriteChar | src/process/escape/mod.rs:128-152 | Appends the escaped character |
| Printer.Escaper.EscapeFmt | src/process/escape/mod.rs:155-179 | Appends the escaped whole of what the formatter writes |
| Printer.Escaper.WriteRawBytes | src/process/escape/str.rs:57-104 | The loop appends what the flag machine prints |
| Printer.Escaper.Write | src/process/escape/mod.rs:164-166 | Appends the printed argument of any kind |
| Printer.Escaper.WriteAll | src/process/escape/concat.rs:32-36 | Appends the components in order |
| Printer.WriteQuoted | src/process/mod.rs:127-137 | Appends the word with the quotes its type asks for |
| Printer.WriteEnv | src/process/mod.rs:95-125 | Appends the assignment, or nothing for an ignored key |
| Printer.WriteTarget | src/process/cmd.rs:71-92 | Appends the redirect target |
| Printer.WriteRedirect | src/process/mod.rs:139-178 | Appends the redirect and a space |
| Printer.WritePart | src/process/escape/cmd.rs:78-140 | Appends the printed tree of parts |
| HostGlob.RewriteBrackets | src/known_hosts.rs:1007-1031 | The lazy rewriting loop turns exactly the brackets into one-character classes |
| HostGlob.RewriteCompiles | src/known_hosts.rs:1007-1034 | The rewritten pattern compiles to one token per character |
| HostGlob.RewriteKeepsDoubleStar | src/known_hosts.rs:1007-1031 | The classes put around brackets neither join nor part two stars |
| HostGlob.GlobIsLiteral | src/known_hosts.rs:999-1044 | Both paths match exactly the strings the pattern matches with brackets literal; a pattern with `**` gets the library's answer for its rewritten form |
| HostGlob.MatchedGlob | src/known_hosts.rs:999-1044 | The code computes the equality on its fast path, and the match of the rewritten pattern on the other |
| HostGlob.VerifyPlain | src/known_hosts.rs:927-966 | The early-returning loop says: some positive and no negated pattern covers host and port |
| HostGlob.PatternIsAdded | src/known_hosts.rs:927-966 | Adding `!pat` to a list takes away what `pat` covers; adding any other pattern adds what it covers unless a negated one takes it away |
| HostGlob.HostPatternMeans | src/known_hosts.rs:940-960 | A pattern without a port needs port 22 and a match of the host |
| HostGlob.PortPatternMeans | src/known_hosts.rs:940-960 | `[host]:port` matches host and port separately, with wildcards in both |
| HostGlob.PrincipalsMean | src/known_hosts.rs:912-920 | An empty list of principals accepts any host; otherwise one of them must match it |
| HostGlob.CoversHost | src/known_hosts.rs:940-956 | One pattern, on host and port |
| KnownHosts.New | src/known_hosts.rs:779-839 | Each array is absent iff it would be empty, else sorted and a permutation of the entries of its lines |
| KnownHosts.ToAlgorithm | src/known_hosts.rs:137-185 | Conversion back and forth is the identity; the unsupported group is never converted |
| KnownHosts.FromAlgorithmIs | src/known_hosts.rs:136-162 | Which algorithms are supported, which are compared as the same, and which name each group stands for: RSA without a hash goes with SHA-256 |
| KnownHosts.PartitionPoint | src/known_hosts.rs:233 | On a sorted array the result separates smaller from other entries |
| KnownHosts.SearchIsScan | src/known_hosts.rs:232-239 | On a sorted array the search finds an entry iff a scan does |
| TrustDecisions.StoredLookup | src/known_hosts.rs:232-251 | A lookup holds iff some original line of that kind has the key and matches the host |
| TrustDecisions.HasPubkeysAgrees | src/known_hosts.rs:253-259 | Some key is known iff some unmarked supported line matches |
| TrustDecisions.PublicKeyResultIsScan | src/known_hosts.rs:290-301 | Every public-key result is that of a scan of the unsorted lines |
| TrustDecisions.CertResultIsScan | src/known_hosts.rs:340-380 | Every certificate result is that of a scan of the unsorted lines |
| TrustDecisions.OrderDoesNotMatter | src/known_hosts.rs:265-266 | Permuting the lines changes no public-key or certificate result |
| TrustDecisions.PlainPatterns | src/known_hosts.rs:86-91 | For hosts without wildcards, IPv6 addresses too: a pattern without a port covers port 22 only; `[host]:port` covers exactly that port, 22 included |
| TrustDecisions.HashedNames | src/known_hosts.rs:968-990 | A hashed name is that of the host for port 22 and of `[host]:port` for any other port |
| TrustDecisions.PublicKeyResultMeans | src/known_hosts.rs:262-301 | Each of the four results, by the lines of the file that match the host and the algorithm of the key |
| TrustDecisions.CertResultMeans | src/known_hosts.rs:307-380 | Each result, by the certificate's type, options and principals and by the lines of the file |
| TrustDecisions.KnownKeyIsFound | src/known_hosts.rs:268-270 | The key of an unmarked line for the host is found, or revoked, whichever supported algorithm it has |
| TrustDecisions.RevokingIsMonotone | src/known_hosts.rs:290-301 | Adding revoked lines leaves a result or makes it `Revoked` |
| TrustDecisions.TrustingIsMonotone | src/known_hosts.rs:290-301 | Adding unmarked lines moves a public-key result only up NotFound, KeyMismatch, Found |
| PreferredAlgs.KnownPublicKeyAlgs | src/known_hosts.rs:481-496 | The mask holds exactly the algorithms with a matching entry, although the loop stops at the first CA |
| PreferredAlgs.PreferredIter.NextKnown | src/known_hosts.rs:556-566 | The loop over stored entries yields the next known algorithm, or ends for good |
| PreferredAlgs.PreferredIter.Next | src/known_hosts.rs:551-576 | Yields exactly the pending algorithms one by one, then nothing for ever |
| PreferredAlgs.Collect | src/known_hosts.rs:421-424 | The whole run is what was pending |
| PreferredAlgs.KnownRestIsIncreasing | src/known_hosts.rs:561-564 | Comparing with the previous algorithm is enough: each is yielded once, in order |
| PreferredAlgs.KnownRestIsComplete | src/known_hosts.rs:556-566 | Exactly the known algorithms are yielded |
| PreferredAlgs.PreferenceMeans | src/known_hosts.rs:528-578 | The preference, by the names of the algorithms in their fixed order and by the lines of the file |
| PreferredAlgs.PreferenceIgnoresOrder | src/known_hosts.rs:418-427 | Permuting the lines changes neither the preference nor whether there is one |
| PreferredAlgs.UpdatePreferredKeys | src/known_hosts.rs:418-427 | The new preference is each known algorithm once in the fixed order, then the other configured ones, in terms of the lines; unchanged if none is known |
| ProxyJump.TargetRoundTrip | src/config.rs:71-110 | Every form of `[user@]host[:port]` is parsed into its parts iff the port is there or the host holds no colon |
| ProxyJump.PortRoundTrip | src/config.rs:73 | A printed port is read back iff it is below 65536, and dropped otherwise |
| ProxyJump.NotANumber | src/config.rs:73 | A character that is not a digit, other than a leading `+`, makes a port unparsable |
| ProxyJump.UnparsablePortIsDropped | src/config.rs:88-91 | The documented `my-host:nan` keeps its host and loses its port |
| ProxyJump.LastGroupIsTakenForPort | src/config.rs:98-102 | A concrete IPv6 address without a port loses its last group to the port |
| ProxyJump.ParseConfig | src/config.rs:723-762 | Within any number of iterations: an error iff the target or a bastion listed for a visited host cannot be parsed; else the chain of the recursive route iff fewer first jumps lead to a host without jumps; else still running |
| ProxyJump.RouteIsParsed | src/config.rs:723-762 | The recursive route fails iff the loop meets something it cannot parse |
| ProxyJump.ParsedHostIs | src/config.rs:764-790 | Name, port, user and authentication of a host, each from the configuration, else from the target, else its default; it fails iff no user name is known |
| ProxyJump.RouteEndsInListed | src/config.rs:735-755 | A route ends with the listed bastions, in order and as configured, and the target; before them comes the route to the first of them |
| ProxyJump.ChainIsConfigured | src/config.rs:723-762 | Any chain the loop returns has the configured target and ends in the configured bastions |
| ProxyJump.PushRest | src/config.rs:742-747 | The inner loop pushes the other listed bastions in reverse, or fails |
| ProxyJump.IterationsAreHosts | src/config.rs:731-761 | The hosts on a path that ends are all different: as many as the iterations |
| ProxyJump.RevisitNeverReturns | src/config.rs:731-761 | If the path comes back to a host, the loop never stops, unless something it meets cannot be parsed |
| ProxyJump.EndlessComesBack | src/config.rs:731-761 | Conversely, among finitely many hosts a path without end comes back to one within as many jumps as there are hosts |
| ProxyJump.ReturnsUnlessPathComesBack | src/config.rs:731-761 | Among finitely many hosts, the loop runs for ever iff nothing fails to parse and the path comes back to a host |
| ProxyJump.SelfJumpNeverReturns | src/config.rs:731-761 | A concrete configuration, a host that jumps through itself, for which no number of iterations returns |
| ProxyJump.FiniteConfiguration | src/config.rs:731-761 | A path that ends does so within as many iterations as there are hosts |
| ProxyJump.BastionIter.Next | src/config.rs:686-695 | Yields the pending hops in order, then nothing for ever |
| ProxyJump.BastionIter.Len | src/config.rs:705-711 | The number of hops still to come, in every state |
| ProxyJump.ItemsAreLinked | src/config.rs:605-620 | Every hop starts where the one before ended |
| ProxyJump.Iterate | src/config.rs:649-665 | The entry host and the hops after it are the chain's route; there is one hop per bastion |
| AuthStack.AuthMethods.Push | src/auth.rs:869-876 | Appends to the methods, whichever way they are stored |
| AuthStack.FromConfigWithNone | src/auth.rs:878-950 | `none`, then all agent methods, then all local methods in identity order |
| AuthStack.AgentFilteredWithoutNone | src/auth.rs:959-998 | All agent methods, without the first if it came with a local method, then all local methods |
| AuthStack.FromConfigWithoutNone | src/auth.rs:952-1048 | An error iff nothing is configured; otherwise the configured methods, or those without the first |
| AuthStack.FromConfig | src/auth.rs:791-797 | What is built is never empty, and is the intended stack iff the first agent method is not dropped |
| AuthStack.StackIsIntended | src/auth.rs:967-970 | The specified stack is the intended one iff the first agent method is not dropped, and never empty |
| AuthStack.FirstAgentMethodIsLost | src/auth.rs:967-970 | A concrete configuration that loses its only agent method |
| AuthStack.FilterAgentIs | src/auth.rs:1068-1099 | Filtering identities gives the agent methods of usable ones and the local methods of private keys |
| AuthStack.OneIdentity | src/auth.rs:1050-1099 | The methods of one identity, to the agent and locally, with and without a certificate |
| AuthStack.IdentitiesInOrder | src/auth.rs:885-910 | The methods of a list are those of its identities, in order |
| AuthStack.IntendedIs | src/auth.rs:878-950 | The intended stack in every configuration: `none`, the agent, the private keys |
| Connect.Authenticate | src/connect.rs:439-453 | Methods are tried in stack order up to the first that is not refused |
| Connect.ConnectHop | src/connect.rs:27-69 | One hop makes its calls in order and stops at the first failure |
| Connect.CallsAreForTheHop | src/connect.rs:400-418 | In every run the channel, the handler, the session and the methods of a hop are made with that hop's own destination, host, user and configuration, in this order |
| Connect.FailedHopEnded | src/connect.rs:439-453 | A hop that did not authenticate ended at a failed call, or after all its methods were refused |
| Connect.ConnectImpl | src/connect.rs:383-436 | Every run goes along the route up to its end or its first failing hop; it succeeds iff every host has authenticated |
| Connect.FollowBastions | src/connect.rs:400-421 | Each bastion is connected through the handle of the hop before |
| Connect.TunnelsAreAuthenticated | src/connect.rs:400-418 | Every channel is opened through the previous hop, after that hop authenticated |
| Connect.SuccessAuthenticatesAll | src/connect.rs:383-436 | A successful run ended every hop in a success of its own stack |
| Connect.EventAt | src/connect.rs:446-452 | The methods tried at a hop are a prefix of its stack, all refused but possibly the last |
| Connect.FailureStopsTheRun | src/connect.rs:400-418 | Over the whole log of a run, the answers are the oracle's in order and no call follows one that failed |
| Connect.HopIsDetermined | src/connect.rs:27-69 | What a finished hop did is the only sequence of calls with its answers that keeps to the plan |
| Connect.RunIsDetermined | src/connect.rs:383-436 | The route, the stacks and the answers determine the whole run: the contract of `ConnectImpl` admits one run only |
| Connect.AllInAgent | src/auth.rs:489-513 | Public keys and user certificates are offered in order up to the first that is not refused |
| Connect.OfferedOne | src/auth.rs:492-503 | Public keys and user certificates are offered, host certificates are not |
| Connect.OfferedInOrder | src/auth.rs:489-513 | The identities are offered in the agent's order |
| ChildIo.Child.ReadNext | src/process/child.rs:144-168 | Yields the next chunk; every byte consumed is on its stream, the status is the last one, one close per `None` |
| ChildIo.Child.Wait | src/process/child.rs:173-176 | Reads to the next failure or the end and returns the low eight bits of the last status |
| ChildIo.Child.WaitWithOutput | src/process/child.rs:183-199 | Each stream is the in-order concatenation of its messages since the earlier reads |
| ChildIo.OneMessage | src/process/child.rs:151-160 | Data is stdout, extended data of kind 1 is stderr, anything else is neither |
| ChildIo.LastStatusIs | src/process/child.rs:157-159 | The status is that of the last message carrying one |
| ChildIo.NoStatus | src/process/child.rs:302-303 | It is zero if none does |
| ChildIo.UntilFailureIs | src/process/child.rs:144-168 | Reading stops right after the first failure, or at the end |
| ChildIo.ExitedWithLowBits | src/process/child.rs:312-315 | As a Unix wait status, the result means a normal exit with the low eight bits as its code |

## Left out

- Network, agent sockets and tokio: every foreign call is an arbitrary answer of an oracle.
- Error values: a failed call is only known to have failed.
- Key and certificate files, digests, HMAC and certificate validation are parameters.
- `Command::new_unchecked` and `take_inner` bypass the builder.
- Argument implementations for integers, booleans, slices and vectors print plain digits or loop like `Concat`.
- UTF-8: strings are sequences of bytes; only the boundary rule `floor_char_boundary` needs is modelled, in the type of a key.
- The reader does not follow arithmetic, here-documents, backquotes, `$name` outside an expansion, comments, compound commands or newlines between commands: it fails on them.
- The glob library's handling of `**`: its answer for such a pattern is a parameter.
- Lower-casing and bracket trimming of the requested host in `KnownHostsHandler::new`.
- The `rsa` feature is taken as enabled.
- `expand_tilde`, environment variables and `parse_tty`: operating system queries with little logic.
- ProxyJump.ParseConfig: is stopped after a given number of iterations, because the original loop may run for ever; its contract says for every number what it has returned by then.
- Printer.Buffer: capacity and reallocation of the string are not modelled.
