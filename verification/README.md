# ngIRCd, modelled and proved in Dafny

ngIRCd is an IRC daemon written in C. This project models the parts of it where
state, order and byte streams meet, and proves what they promise for all inputs
and over whole runs. `dafny verify dfyconfig.toml` checks everything.

| files | model |
|---|---|
| ChannelMode, ModeReplay, ModeFits, ModeWire, ModePrivilege, ModeGrants, ChannelModeLoop, ModeBuffer, UserMode | the MODE interpreter, its broadcast and its privileges |
| Request | the split of a line into prefix, command and arguments |
| Clients, Channels, Network, Hash, Directory | the client tree, channel membership, netsplits, hashed lookup |
| Match, Masks, MaskList | the wildcard matcher and the linked mask lists |
| Buffer, Lines, Inbound, LineLimit, Outbound, EndToEnd | byte arrays, reading and writing lines, both ends of a link |
| CloseCascade, ServerWalk, Select, Ping | re-entrant closing, messages to all servers meanwhile, the select event table, timers |
| Njoin | channel bursts between servers |
| CStrings, Defines | bounded copies and case folding, sizes and client types |

Where the C code changes things in place, a class or a loop does so here and is
proved equal to a function of the old state; the theorems are about those
functions, their runs, and independent definitions: textbook globs, the lines
of a byte stream, introducer chains, a reader of mode diffs.

Some promises do not hold as they stand. Each has a concrete counterexample and
the exact condition under which it does hold:

- The matcher misses texts a textbook glob matches for exactly two families of
  patterns: those that close with two or more stars of which the first is not
  part of an earlier star's run (`a**`, but not `*?**`), and those with a star
  run in front of a backslash that is the last character or has neither a
  backslash nor `[` behind it (`Match.MatchExact`, `Match.MatchGapWitness`).
- A mask whose separator the buffer cut off becomes another mask when it is
  normalised once more (`Masks.MakeMaskAgain`, `Masks.MaskLosesHost`).
- The MODE diff of every command replays exactly if the letters k and l occur at
  most once in the channel modes, as they do unless a mode string with doubled
  letters was taken over from a peer (`ModeReplay.ReplayExact`,
  `ModeReplay.ReplayNeedsSingle`).
- As a line the diff is parsed as it was meant exactly if its parameters are at
  most 15, none is empty, holds a space or starts with a colon, and the last one
  does not end in white space (`ModeWire.WireExact`). A new key gets to the other
  servers exactly if it neither starts with a colon nor ends in white space
  (`ModeWire.KeyArrives`).
- A line of 511 bytes ended by CR LF is accepted or refused depending on whether
  CR and LF come in one read; no other line is (`LineLimit.LimitExact`,
  `LineLimit.LimitDependsOnCut`).
- An NJOIN line is complete when it is handed over, but together with its server
  prefix it may exceed 510 bytes and is then cut on the wire
  (`Njoin.WireExact`). A line is sent once it has more than 473 characters, so
  with a server name of 35 characters or more every full line loses joins
  (`Njoin.FullLineLost`).
- Creating an event again for a descriptor with fewer events than before leaves
  stale bits in the select sets (`Select.CreateGood`, `Select.StaleWriter`).
- A channel may lose mode P only while it has members (`Channels.ModedValid`,
  `Channels.PersistentEmptied`).

A message to all servers holds a pointer into the client list while it is
written to one of them, and a write may close links. The walk gets to the end of
the list exactly if no message closes the link it is written to
(`ServerWalk.Walker.WriteServers`), and then every server still linked got it
once (`ServerWalk.WalkServes`).

`MaskList.AddUnique` gives the exact condition under which an addition keeps a
list free of duplicates. It could fail only for a mask of 128 bytes or more,
and no caller passes one: `Class_AddMask` and `Add_To_List` normalise the
pattern into 127 bytes, and `IRC_INVITE` passes a client mask of at most 115.

The comment at src/state/connection/io.c:137-140 calls `select_maxfd` the largest
descriptor plus one; the code keeps the largest descriptor, and so does the model.

## Model

| member | source | states |
|---|---|---|
| `ModeReplay.Replay` | src/server/proto/irc/irc-mode.c:511-973 | meaning preservation: the broadcast of any MODE command by anybody, run as a server's command on the same start, leaves the same flags, key, limit and member modes; no broadcast means no change |
| `ModeReplay.ReplayExact` | src/server/proto/irc/irc-mode.c:511-973 | exactly on the channels whose letters k and l are single does every command of every sender replay |
| `ModeReplay.ReplayNeedsSingle` | src/server/proto/irc/irc-mode.c:602-656 | with a doubled key letter any new key changes the channel without a broadcast |
| `ModeReplay.ReplayNeedsSingleLimit` | src/server/proto/irc/irc-mode.c:658-709 | with a doubled limit letter any new limit does |
| `ModeFits.DiffFits` | src/server/proto/irc/irc-mode.c:882-931 | for parameters that fit a request line nothing appended to the reply buffers is cut |
| `ModeFits.InterpretPaid` | src/server/proto/irc/irc-mode.c:511-931 | a command reports at most as many letters and argument bytes as it read, and one more argument byte for each key letter set before |
| `ModeFits.LimitLength` | src/server/proto/irc/irc-mode.c:658-709 | a limit is printed no longer than it was written |
| `ModeFits.AppendedWhole` | src/server/proto/irc/irc-mode.c:903-931 | the bounded appends build the whole text if it is shorter than the buffer |
| `ModeWire.WireExact` | src/server/proto/irc/irc-mode.c:936-973 | the line of a broadcast is parsed into origin, channel, modes and arguments as they were meant if and only if there are at most 15 parameters, none empty, with a space or with a leading colon, and no white space at the end |
| `ModeWire.WireReplay` | src/server/proto/irc/irc-mode.c:936-973 | then a server that parses the line ends with the flags, key, limit and member modes of the sender |
| `ModeWire.TidyArrives` | src/server/proto/irc/irc-mode.c:511-973 | parameters and client ids without white space and leading colons give such a broadcast, exactly as long as it has at most 13 arguments |
| `ModeWire.KeyArrives` | src/server/proto/irc/irc-mode.c:602-657 | a new key gets to a server that parses the line if and only if it has no colon at its start and no white space at its end |
| `Request.ParseRequest` | src/server/proto/irc/parse.c:176-266 | trimming, prefix, command and the loop over at most 15 arguments compute the specified split of a line |
| `Request.ParseExact` | src/server/proto/irc/parse.c:195-266 | a message is split into the prefix, command and arguments it was printed from if and only if the arguments are plain, at most 15, and end in no white space |
| `Request.BareExact` | src/server/proto/irc/parse.c:195-266 | the same for messages without a prefix |
| `Request.ParseNothing` | src/server/proto/irc/parse.c:197-216 | which lines are ignored, and which are a prefix without a command |
| `Request.ParseTrailing` | src/server/proto/irc/parse.c:234-266 | behind plain arguments and a colon any text is read back, without the white space at its end |
| `Request.ParseLast` | src/server/proto/irc/parse.c:234-266 | what is read of a last argument without a space: a leading colon and white space at the end are lost |
| `Request.ArgsOnly` | src/server/proto/irc/parse.c:234-266 | arguments that are read as they were printed are all plain |
| `Request.ArgsCount` | src/server/proto/irc/parse.c:234-266 | no more than 15 arguments are read |
| `Request.TrimStr` | src/support/tool/tool.c:41-70 | both ends lose exactly their white space |
| `Request.TrimExact` | src/support/tool/tool.c:41-70 | spaces, tabs and line ends go from both ends, nothing else |
| `ModeReplay.InterpretTracks` | src/server/proto/irc/irc-mode.c:511-940 | at every point of the loop the diff built so far replays to the channel as it is |
| `ModeReplay.ServerReads` | src/server/proto/irc/irc-mode.c:511-940 | what the reader of a diff makes of a mode string is what a server's MODE command does |
| `ModeReplay.CharEmits` | src/server/proto/irc/irc-mode.c:545-940 | every mode character either leaves no trace or reports itself with an argument that has the same effect again |
| `ModeReplay.AtolDecimal` | src/server/proto/irc/irc-mode.c:658-709 | a member limit that is printed is read back as the same number |
| `ModePrivilege.Authority` | src/server/proto/irc/irc-mode.c:558-861 | one command of an ordinary user: a member letter changes only if the sender held its tier when the command came in; O and P are never set; without q, a, o or h nothing changes |
| `ModePrivilege.RunTiers` | src/server/proto/irc/irc-mode.c:558-861 | every run of commands of ordinary users: no owner from nothing, no admin without owner or admin, no op or half-op without owner, admin or op, O and P never set, and with no holder of any tier nothing ever changes |
| `ModePrivilege.StepTiers` | src/server/proto/irc/irc-mode.c:558-861 | the same for one command |
| `ModeGrants.FlagExact` | src/server/proto/irc/irc-mode.c:571-601 | one flag, for every sender: it changes if and only if the sender may change it, told from the letters held: q, a or o for R, s, z; h as well for i, V, M, m, n, N, Q, t; O and P only taken off; unknown ones for servers |
| `ModeGrants.MemberExact` | src/server/proto/irc/irc-mode.c:756-823 | one member mode: the letter of the named member changes if and only if the sender held its tier; nothing else changes |
| `ModeGrants.KeyExact` | src/server/proto/irc/irc-mode.c:602-657 | a key of one word is stored, cut to 64 bytes, exactly for a holder of q, a, o or h |
| `ModeGrants.KeyOffExact` | src/server/proto/irc/irc-mode.c:605-617 | the key letter goes exactly for such a sender, and an argument is skipped |
| `ModeGrants.LimitExact` | src/server/proto/irc/irc-mode.c:658-709 | a limit of 1 to 65534 is stored exactly for such a sender |
| `ModeGrants.LimitOffExact` | src/server/proto/irc/irc-mode.c:661-670 | the limit letter goes exactly for such a sender |
| `ModeGrants.ListExact` | src/server/proto/irc/irc-mode.c:825-858 | b, e and I change the bans, the exceptions and the invites, exactly for such a sender; users are held to 50 entries |
| `ModeGrants.FlagsExact` | src/server/proto/irc/irc-mode.c:511-601 | any flags with any signs over any number of parameters: each ends as its last occurrence says |
| `ModeGrants.FivePerCommand` | src/server/proto/irc/irc-mode.c:111-120 | of the modes with an argument a user gets five into one command, a server or service all |
| `ModeGrants.RefusedEnds` | src/server/proto/irc/irc-mode.c:573-582 | a refused R, s or z ends the command |
| `ModeGrants.NoArgument` | src/server/proto/irc/irc-mode.c:804-857 | lists and member modes without an argument change nothing |
| `ModeGrants.PrivilegeLasts` | src/server/proto/irc/irc-mode.c:558-567 | an operator who takes off its own o can still set a flag behind it in the same command |
| `ChannelModeLoop.Run` | src/server/proto/irc/irc-mode.c:444-977 | the whole command on a channel object: refused commands change nothing, others leave channel, lists and message as the recursive interpreter says |
| `ChannelModeLoop.Session.Loop` | src/server/proto/irc/irc-mode.c:511-931 | the loop with its two cursors is the walk over one mode string and a queue of arguments |
| `ChannelModeLoop.Session.Handle` | src/server/proto/irc/irc-mode.c:554-931 | one mode character, switch and common tail, does what the specification says of it |
| `ChannelModeLoop.Session.Switch` | src/server/proto/irc/irc-mode.c:558-880 | the locals the switch leaves make the tail do that |
| `ChannelModeLoop.Session.LookUp` | src/server/proto/irc/irc-mode.c:558-567 | the privilege flags only ever rise |
| `ChannelModeLoop.Session.CaseFlag` | src/server/proto/irc/irc-mode.c:573-601 | R, s, z with their guard, falling through to the flags of half-operators |
| `ChannelModeLoop.Session.CaseKey` | src/server/proto/irc/irc-mode.c:602-657 | the key case with its limit on arguments |
| `ChannelModeLoop.Session.CaseKeyOn` | src/server/proto/irc/irc-mode.c:620-657 | missing and bad keys end the command; else the old letter goes and the key is stored cut |
| `ChannelModeLoop.Session.CaseKeyOff` | src/server/proto/irc/irc-mode.c:605-619 | an argument is skipped and a star reported if there was a key |
| `ChannelModeLoop.Session.CaseLimit` | src/server/proto/irc/irc-mode.c:658-710 | the limit case |
| `ChannelModeLoop.Session.CaseOther` | src/server/proto/irc/irc-mode.c:711-880 | O and P, and unknown letters from servers only |
| `ChannelModeLoop.Session.CaseMember` | src/server/proto/irc/irc-mode.c:750-822 | q, a, o, h falling through to v, and the lookup of the target |
| `ChannelModeLoop.Session.Guards` | src/server/proto/irc/irc-mode.c:750-794 | the fall-through guards are the tiers |
| `ChannelModeLoop.Session.CaseList` | src/server/proto/irc/irc-mode.c:823-861 | the list case, with and without an argument |
| `ChannelModeLoop.Session.ChangeList` | src/server/proto/irc/irc-mode.c:1018-1115 | adding to and deleting from a list, with its limit and confirmation |
| `ChannelModeLoop.Session.Tail` | src/server/proto/irc/irc-mode.c:882-931 | the common tail: target check, change, report |
| `ChannelModeLoop.Session.ChangeFlag` | src/server/proto/irc/irc-mode.c:913-924 | a flag is changed in the mode buffer and reported if it changed |
| `ChannelModeLoop.Session.ChangeMember` | src/server/proto/irc/irc-mode.c:896-912 | so is a member mode |
| `ChannelModeLoop.Cursor.Advance` | src/server/proto/irc/irc-mode.c:512-540 | the next mode character or the next unused parameter |
| `ModeBuffer.ModeAdd` | src/state/channel/channel.c:660-680 | appending in place to a NUL-terminated buffer: the string gains the letter unless it has it or is full |
| `ModeBuffer.ModeDel` | src/state/channel/channel.c:683-704 | shifting in place removes exactly the first occurrence and keeps the terminator |
| `ModeBuffer.Find` | src/state/client/client.c:565-575 | first position of the letter in the string, or its end |
| `UserMode.ClientMode` | src/server/proto/irc/irc-mode.c:131-374 | the in-place loop computes the specified modes and announcement; a user's command for somebody else changes nothing |
| `UserMode.Replay` | src/server/proto/irc/irc-mode.c:160-374 | the announced diff sent by an unrestricted server has the effect of the command; without one nothing changed |
| `UserMode.RunHumble` | src/server/proto/irc/irc-mode.c:139-288 | no run of MODE commands of users, for themselves or others, sets o or R or clears r |
| `UserMode.LetterExact` | src/server/proto/irc/irc-mode.c:213-318 | one letter, for every sender: it changes if and only if the sender may change it |
| `UserMode.LettersExact` | src/server/proto/irc/irc-mode.c:171-323 | letters that everybody may change, with any signs over any number of parameters: each ends as its last occurrence says |
| `Network.Server.Destroy` | src/state/client/client.c:227-322 | terminates and removes exactly the clients whose introducer chain reaches the victim, from all tables |
| `Network.Netsplit` | src/state/client/client.c:227-322 | who is gone, who stays and in which order, no pointer and no membership to a removed client; for a direct link the removed are those whose next hop it is |
| `Network.NetsplitLinks` | src/state/channel/channel.c:423-443 | the memberships that survive a netsplit are those of clients not behind the victim |
| `Clients.BehindLink` | src/state/client/client.c:894-906 | for a direct link, the introducer chain reaches it if and only if the next hop is that link |
| `Clients.BehindClosed` | src/state/client/client.c:249-268 | the clients behind a server are closed under introduction |
| `Clients.WithoutValid` | src/state/client/client.c:227-322 | removing a closed set keeps list order, tokens, introducers and hashes right |
| `Network.Server.RemoveSelf` | src/state/client/client.c:269-317 | one client is taken out of the list and out of every channel |
| `Network.Scan` | src/state/client/client.c:250-268 | the scan finds the first other client introduced by the victim, or none |
| `Clients.FreshToken` | src/state/client/client.c:1430-1451 | terminates with the least token of at least 2 that is not in use, at most the number of clients plus 2 |
| `Clients.NewClientValid` | src/state/client/client.c:179-224 | a new client keeps the table valid, tokens distinct |
| `Clients.NewClientMeans` | src/state/client/client.c:179-224 | a new client stands at the head with what it was created with |
| `Clients.SettersMean` | src/state/client/client.c:383-545 | the setters of id, type and introducer change these fields of one client |
| `Clients.WithKindValid` | src/state/client/client.c:509-516 | becoming a server keeps tokens distinct |
| `Clients.WithIdValid` | src/state/client/client.c:383-398 | a new id with its hash keeps the table valid |
| `Clients.SelfIntroducedValid` | src/state/client/client.c:535-541 | a link that introduces itself keeps the graph acyclic |
| `Clients.Search` | src/state/client/client.c:597-620 | hash-filtered lookup of an id returns what a plain scan ignoring case returns, though nameless clients have hash 0; an empty id meets only a client explicitly given it |
| `Directory.FindAgain` | src/state/client/client.c:597-620 | looking up the id that was found finds the same client |
| `Directory.FindNamed` | src/state/client/client.c:597-620 | a nick, or a hostmask that starts with it, means the first client of that name |
| `Hash.Jenkins` | src/server/core/misc/hash.c:84-138 | the block loop in 32-bit arithmetic computes the recursive digest |
| `Hash.LowerInPlace` | src/server/core/misc/hash.c:35-43 | the buffer is folded to lower case in place |
| `Hash.Compute` | src/server/core/misc/hash.c:35-43 | the hash of a name, cut to the line buffer and folded |
| `Hash.SameHash` | src/server/core/misc/hash.c:35-138 | names equal ignoring case hash alike, however long |
| `Hash.EmptyHash` | src/server/core/misc/hash.c:35-138 | the empty name hashes to 0xdeadbf19, not to the zero of a fresh client |
| `Hash.KnownDigest` | src/server/core/misc/hash.c:54-138 | the digest of the sample text has the value published with the function |
| `CStrings.LowerMeans` | src/support/tool/tool.c:95-108 | exactly the 26 letters have two forms |
| `Channels.Search` | src/state/channel/channel.c:567-589 | hash-filtered lookup equals the plain scan ignoring case |
| `Channels.SearchOwnName` | src/state/channel/channel.c:567-589 | the name of a channel finds that very channel |
| `Channels.DropValid` | src/state/channel/channel.c:1071-1158 | ending any set of memberships keeps channels valid: no empty one stays unless persistent |
| `Channels.DropExact` | src/state/channel/channel.c:1071-1158 | the other memberships stay, and the channels that are persistent or have a member |
| `Channels.DropDrop` | src/state/channel/channel.c:1071-1158 | ending memberships in two portions is ending them together |
| `Channels.CreatedValid` | src/state/channel/channel.c:997-1021 | a created channel with its first member keeps names unique |
| `Channels.AddedValid` | src/state/channel/channel.c:1042-1068 | a new member keeps pairs unique |
| `Channels.ModedValid` | src/state/channel/channel.c:660-704 | a change of channel modes keeps the channels valid if and only if P is set or there is a member |
| `Channels.PersistentEmptied` | src/state/channel/channel.c:660-704 | a channel that is made, set persistent, left and loses P is no longer valid |
| `Network.Server.PartAll` | src/server/proto/irc/irc-channel.c:56-68 | JOIN 0 terminates, ends exactly the memberships of the client and touches no other |
| `Network.Server.PartAt` | src/state/channel/channel.c:293-325 | parting by the name of a picked membership ends that membership |
| `Network.Server.ChannelQuit` | src/state/channel/channel.c:423-443 | the client leaves every channel although the list shrinks while it is walked |
| `Network.Server.LeaveAt` | src/state/channel/channel.c:430-441 | one step of that walk: the position stays right whether or not the channel goes |
| `Network.Server.RemoveClient` | src/state/channel/channel.c:1071-1158 | one membership ends; a channel that is not persistent goes with its last member |
| `Network.Server.DeleteChannel` | src/state/channel/channel.c:1350-1376 | exactly that channel leaves the list |
| `Network.Server.Part` | src/state/channel/channel.c:293-325 | succeeds if and only if the channel exists and the client is on it |
| `Network.Server.Join` | src/state/channel/channel.c:250-283 | joins or creates; refused for an invalid name or a second join |
| `Network.JoinExact` | src/state/channel/channel.c:250-283 | a join succeeds exactly for a valid name of at most 50 characters and a client that is on no channel of that name |
| `Network.JoinMeans` | src/state/channel/channel.c:250-283 | then the client is on a channel of that name without modes, and all else is as it was |
| `Network.Server.Kick` | src/state/channel/channel.c:331-420 | removes the target and nobody else, if and only if target and origin are on the channel, and a user who is no IRC operator meets neither a protected target nor mode Q and has a rank that is not below the target's |
| `Network.KickRank` | src/state/channel/channel.c:370-409 | the branches of the rank test say: at least half-op and not below the target |
| `Network.KickDecided` | src/state/channel/channel.c:331-409 | the tests of the source decide exactly that, on the letters in the memberships of kicker and target |
| `Network.KickCases` | src/state/channel/channel.c:331-409 | for two given memberships: the comparison of ranks, the protected target and mode Q, and the server that may always kick |
| `Network.Server.Create` | src/state/client/client.c:179-224 | a new client at the head of the list, with the hash of its id or 0 if it has none, and a fresh token if it is a server |
| `Network.Server.SetId` | src/state/client/client.c:383-398 | any id, also the empty one, and its hash are set together |
| `Network.Server.SetModes` | src/state/channel/channel.c:660-704 | only the mode string of that channel changes |
| `Network.Server.SetType` | src/state/client/client.c:509-516 | who becomes a server gets a fresh token |
| `Network.Server.IntroduceSelf` | src/state/client/client.c:535-541 | a direct link introduces itself |
| `Network.Server.constructor` | src/state/client/client.c:71-103 | this server alone is a valid network |
| `Network.RunValid` | src/state/channel/channel.c:250-443 | every state of every run of creation, join, part, kick, quit, mode, type and id change and destruction: pairs unique, both ends live, names unique ignoring case, no empty channel unless persistent, tokens distinct, hashes right |
| `Network.HappensValid` | src/state/channel/channel.c:250-443 | each step keeps all of that |
| `Network.JoinValid` | src/state/channel/channel.c:250-283 | so does a join, with or without creation |
| `Match.Matche` | src/server/core/misc/match.c:103-131 | terminates; valid exactly for the accepted texts; an abort means no suffix of the text is accepted either |
| `Match.MatcheAfterStar` | src/server/core/misc/match.c:133-180 | the same behind a star |
| `Match.TrySuffixes` | src/server/core/misc/match.c:163-179 | the search loop answers for all suffixes at once |
| `Match.Match` | src/server/core/misc/match.c:50-57 | true exactly for the accepted texts |
| `Match.MatchCaseInsensitive` | src/server/core/misc/match.c:66-75 | true exactly for the texts accepted once both strings are cut to 512 bytes and folded |
| `Match.AcceptsStar` | src/server/core/misc/match.c:133-180 | what a leading run of wildcards accepts, as a search for the rest |
| `Match.MatchSound` | src/server/core/misc/match.c:103-180 | for every pattern and text: what is accepted is a textbook glob match |
| `Match.MatchExact` | src/server/core/misc/match.c:103-180 | a pattern is matched completely if and only if it has no closing double star and no backslash trap |
| `Match.MatchGapWitness` | src/server/core/misc/match.c:133-180 | two patterns on which the matcher misses a match |
| `Match.PlainMask` | src/server/core/misc/match.c:103-180 | sound and complete without backslash and adjacent stars |
| `Match.NoCaseInvariant` | src/server/core/misc/match.c:66-75 | masks and texts that differ in case only match alike |
| `Match.NoCaseSound` | src/server/core/misc/match.c:66-75 | what matches is a glob of the text when case does not matter, on the strings as given, and without the two traps every such text matches |
| `Match.NoCaseExact` | src/server/core/misc/match.c:66-75 | exactly the masks without a closing double star and a backslash trap match like that |
| `Match.GlobFolded` | src/server/core/misc/match.c:66-75 | folding both strings first and ignoring case on the way are the same |
| `MaskList.RunUnique` | src/server/core/misc/lists.c:126-223 | over every run of additions of patterns and client masks, deletions, checks and expiries no two masks are equal ignoring case |
| `MaskList.AddUnique` | src/server/core/misc/lists.c:126-170 | an addition keeps that if and only if the mask is known or its stored form is new |
| `MaskList.AddLongTwice` | src/server/core/misc/lists.c:126-170 | a mask of 128 bytes or more, which no caller passes, would be stored twice when added twice |
| `MaskList.KeptUnique` | src/server/core/misc/lists.c:202-223 | filtering keeps masks unique |
| `MaskList.CheckedUnique` | src/server/core/misc/lists.c:332-360 | so does using up a one-shot entry |
| `MaskList.List.Add` | src/server/core/misc/lists.c:126-170 | in the linked list: a known mask is renewed in place, a new one becomes the head; no cycle |
| `MaskList.List.Unlink` | src/server/core/misc/lists.c:179-194 | exactly the entry at that position is unlinked; the rest stays linked in order |
| `MaskList.List.Del` | src/server/core/misc/lists.c:202-223 | unlinking while walking leaves exactly the entries with other masks |
| `MaskList.List.CheckDupeMask` | src/server/core/misc/lists.c:256-267 | the first entry with that mask, or none |
| `MaskList.List.CheckReason` | src/server/core/misc/lists.c:332-360 | true only if some mask is a glob of the plain or the cloaked client mask, and for masks without the two traps exactly then; at most the first match goes, only if one-shot; the reason is copied |
| `MaskList.ListsCovers` | src/server/core/misc/lists.c:340-346 | an entry lists only clients of its mask, and all of them for a mask without the two traps |
| `MaskList.CheckedMeans` | src/server/core/misc/lists.c:332-360 | a check takes away the first entry that lists the client if that is one-shot, and else nothing |
| `MaskList.KeptMeans` | src/server/core/misc/lists.c:203-398 | entries without a limit or with one not over yet stay, and entries with another mask |
| `MaskList.AddedMeans` | src/server/core/misc/lists.c:126-170 | after an addition the mask is listed with the new limit and reason, all other masks as before |
| `MaskList.List.FindListed` | src/server/core/misc/lists.c:332-360 | the search stops at the first matching entry |
| `MaskList.List.Pass` | src/server/core/misc/lists.c:212-222 | one step of a walk that unlinks |
| `MaskList.List.Expire` | src/server/core/misc/lists.c:367-398 | unlinks exactly the entries with 0 < valid_until < now |
| `MaskList.KeptHas` | src/server/core/misc/lists.c:202-223 | a filtered list holds exactly the entries that pass the test |
| `MaskList.DelIsUnlisted` | src/server/core/misc/lists.c:202-223 | on the masks alone, deletion is what the MODE interpreter assumes |
| `MaskList.DupeIsListed` | src/server/core/misc/lists.c:256-267 | and so is the duplicate check |
| `Masks.MakeMaskAgain` | src/server/core/misc/lists.c:276-308 | making a mask of a mask changes nothing, exactly unless the buffer cut off a separator |
| `Masks.MaskLosesHost` | src/server/core/misc/lists.c:276-308 | such a mask |
| `Masks.MaskForms` | src/server/core/misc/lists.c:276-308 | what is made of a nick, of nick and user, of nick and host, and of a complete mask |
| `EndToEnd.EndToEnd` | src/state/connection/conn.c:1134-1326 | for any one-line messages, partial writes, read sizes and processing times: the lines parsed are a prefix of the messages as they were cut, none is refused, and all arrive when nothing is left on the way |
| `EndToEnd.MessagesArrive` | src/state/connection/conn.c:1134-1326 | the same on the messages themselves: those of at most 510 bytes arrive unchanged, longer ones with their first 505 bytes and "[CUT]" |
| `EndToEnd.ShortArrive` | src/state/connection/conn.c:1134-1326 | messages of 1 to 510 bytes arrive as they were sent, in order |
| `EndToEnd.RunConsistent` | src/state/connection/conn.c:1571-1697 | over every run of both ends, what was accepted is what was read, is under way or waits |
| `EndToEnd.WireLines` | src/state/connection/conn.c:1134-1218 | the byte stream of any messages has exactly their lines |
| `EndToEnd.ExpectedShort` | src/state/connection/conn.c:1160-1215 | every such line has at most 510 bytes |
| `Inbound.ChunkIndependence` | src/state/connection/conn.c:996-1079 | lines delivered plus lines still in the buffer are the lines of the stream, whatever the reads, limits and penalties; only a line of 511 bytes or more is refused, and none of 512 or more is delivered |
| `Inbound.SameStreamSameLines` | src/state/connection/conn.c:1990-2086 | two readers of one stream that have drained it delivered the same lines |
| `LineLimit.LimitExact` | src/state/connection/conn.c:1035-1047 | two ways to cut a stream into reads of at most 2048 bytes can differ on a refused line, having read prefixes of it, if and only if, behind acceptable lines, a line of exactly 511 bytes is ended by CR LF |
| `LineLimit.LimitDependsOnCut` | src/state/connection/conn.c:1035-1047 | the shortest such stream: refused when CR and LF come in one read, handed out when not |
| `LineLimit.SettledAgree` | src/state/connection/conn.c:996-1079 | without such a line any two readers of a stream that came to an end of it delivered the same and are both open or both closed |
| `LineLimit.DifferSplits` | src/state/connection/conn.c:1035-1047 | where the line stands on which two readers differ |
| `Inbound.BufferBound` | src/state/connection/conn.c:2060-2078 | the read buffer stays below twice its nominal size |
| `Inbound.Reader.ProcessBuffer` | src/state/connection/conn.c:960-1085 | a run of commands, stopped early only by a penalty, a close or want of a line |
| `Inbound.Reader.ReadRequest` | src/state/connection/conn.c:1990-2086 | append, then process |
| `Inbound.Reader.Locate` | src/state/connection/conn.c:1010-1032 | strchr and strstr under a temporary NUL find the first end of line and its width |
| `Inbound.Reader.Handle` | src/state/connection/conn.c:1034-1062 | the line is refused, skipped or handed out and moved away |
| `Inbound.TakeExact` | src/state/connection/conn.c:1007-1062 | what becomes of a line: given up above 512 bytes with its end, skipped if empty, handed out or rejected |
| `Inbound.OverflowExact` | src/state/connection/conn.c:2013-2035 | the buffer is given up exactly with 2048 bytes waiting and more to read |
| `Lines.EndOfLineIsFirst` | src/state/connection/conn.c:1012-1030 | the pointer comparisons yield the first CR or LF, two bytes wide for CR LF |
| `Lines.OfAppend` | src/state/connection/conn.c:996-1079 | lines of complete data do not depend on what follows |
| `Outbound.RunConserves` | src/state/connection/conn.c:1253-1326 | over every run, bytes the socket took followed by the buffer are the bytes accepted, counted by bytes_out, and the buffer stays below the limit |
| `Outbound.UserLink` | src/state/connection/conn.c:1257-1311 | 32768 bytes for links that are no server |
| `Outbound.AnyLink` | src/state/connection/conn.c:1257-1311 | 65536 bytes for any link |
| `Outbound.Writer.HandleWrite` | src/state/connection/conn.c:1571-1697 | a partial write drops exactly the bytes taken; an error closes |
| `Outbound.Writer.Write` | src/state/connection/conn.c:1253-1326 | flush, limit and append as specified; true exactly if all of the data was accepted |
| `Outbound.Writer.WriteStr` | src/state/connection/conn.c:1134-1218 | the message is cut, marked and terminated, then written |
| `Outbound.CutArrives` | src/state/connection/conn.c:1160-1192 | up to 510 bytes are unchanged; of more, the first 505 and "[CUT]" are left |
| `Outbound.WireEnds` | src/state/connection/conn.c:1209-1213 | a line on the wire ends in the bytes 13 and 10 |
| `Outbound.WriteExact` | src/state/connection/conn.c:1253-1326 | when data is accepted and when the link is given up, by 4096, 32768 and 65536 bytes |
| `Buffer.Array.Alloc` | src/server/core/misc/array.c:58-87 | growing counts the new bytes as used and zeroes them |
| `Buffer.Array.CatB` | src/server/core/misc/array.c:142-179 | appends all or nothing and leaves a spare byte |
| `Buffer.Array.Cat0Temporary` | src/server/core/misc/array.c:199-208 | the NUL is not counted if and only if there was a spare byte |
| `Buffer.Array.MoveLeft` | src/server/core/misc/array.c:301-329 | drops a prefix in place |
| `Buffer.Array.CopyB` | src/server/core/misc/array.c:118-129 | replaces the contents or leaves none |
| `Buffer.Array.Trunc` | src/server/core/misc/array.c:279-284 | empties the array and keeps the spare byte |
| `CloseCascade.Pool.Close` | src/state/connection/conn.c:1339-1486 | terminates whatever writes fail; exactly the logged live connections are closed, each once; the counter equals the used slots |
| `CloseCascade.Pool.Write` | src/state/connection/conn.c:1253-1326 | a write may close this and other connections in turn, never one twice |
| `CloseCascade.Pool.HandleWrite` | src/state/connection/conn.c:1663-1679 | a failed write closes unless that is going on |
| `CloseCascade.Pool.DestroyClient` | src/state/client/client.c:227-322 | any number of messages to any connections |
| `CloseCascade.Pool.Accept` | src/state/connection/conn.c:1939-1948 | a new connection is counted |
| `CloseCascade.CascadeCounts` | src/state/connection/conn.c:1476-1484 | a cascade lowers the count by what it shut; at rest the count is the number of open sockets |
| `CloseCascade.RunBalances` | src/state/connection/conn.c:1339-1486 | over every run each slot is shut as often as it was taken, but for the one open now |
| `ServerWalk.Walker.WriteServers` | src/server/proto/irc/irc-write.c:388-404 | the walk takes the links its messages close off the list and nothing else; it gets to the end if no message closed the link it was written to, and is lost at the first one that did |
| `ServerWalk.WalkServes` | src/server/proto/irc/irc-write.c:388-404 | a walk that got to the end wrote to flagged, linked servers only, not to this one or the excepted one: to each exactly once unless an earlier message closed its link, and then never; those still linked were all written to |
| `ServerWalk.Walker.Serve` | src/server/proto/irc/irc-write.c:395-401 | one turn: the client is still on the list exactly if its link was not closed by the message |
| `ServerWalk.Walker.Proceed` | src/server/proto/irc/irc-write.c:402 | on the way to the next client only closed links are skipped |
| `ServerWalk.Walker.Callback` | src/state/connection/conn.c:1253-1326 | a message may close any links, each with the clients behind it |
| `ServerWalk.LeftLeft` | src/state/client/client.c:227-322 | closing links in two portions is closing them together |
| `ServerWalk.OneLink` | src/state/client/client.c:227-322 | destroying a direct client leaves the clients reached through other links |
| `Select.RunGood` | src/state/connection/io.c:753-927 | in every reachable state the sets agree with the event bits, only descriptors with a callback are watched and select_maxfd is the largest of them |
| `Select.RunWatched` | src/state/connection/io.c:753-927 | over every run the sets given to select are those of a plain reading of the calls |
| `Select.StepHooked` | src/state/connection/io.c:753-927 | who has a callback after a call |
| `Select.StepGood` | src/state/connection/io.c:753-927 | each call keeps that if and only if it is used properly |
| `Select.CreateGood` | src/state/connection/io.c:753-786 | for creation: a descriptor created again must be watched for at least what it was |
| `Select.StaleWriter` | src/state/connection/io.c:753-786 | a descriptor created again for less stays among the writers |
| `Select.CloseGood` | src/state/connection/io.c:442-466 | for closing: always, also when the top descriptor goes |
| `Select.EventTable.Dispatch` | src/state/connection/io.c:380-416 | the scan with its history: what each visit saw, what the callback due there did to the table, the calls made; no reported descriptor that is not reached has a callback left |
| `Select.DispatchServes` | src/state/connection/io.c:380-416 | of such a dispatch: a reported descriptor is called exactly once if it has a callback when the scan meets it and else never, nobody else is called, and one that no callback of a lower descriptor closed is called |
| `Select.DueAllExact` | src/state/connection/io.c:380-416 | calls come in the order of descriptors, with the events reported |
| `Select.StillHooked` | src/state/connection/io.c:861-890 | only closing a descriptor takes its callback away |
| `Select.EventTable.DoCallback` | src/state/connection/io.c:959-973 | calls the registered callback, if any |
| `Select.EventTable.EventCreate` | src/state/connection/io.c:753-786 | the table after creation; fails at FD_SETSIZE |
| `Select.EventTable.EventAdd` | src/state/connection/io.c:789-831 | bits, sets and maximum after an addition |
| `Select.EventTable.EventDel` | src/state/connection/io.c:893-927 | bits and sets after a removal |
| `Select.EventTable.CloseSelect` | src/state/connection/io.c:442-466 | the loop finds the next lower descriptor with a callback, or 0 |
| `Select.EventTable.IoClose` | src/state/connection/io.c:861-890 | the descriptor is forgotten everywhere |
| `Select.EventTable.EventSetCallback` | src/state/connection/io.c:717-726 | only the callback changes |
| `Njoin.Announce` | src/server/core/misc/numeric.c:39-112 | no append is cut; the items in the lines are, in order, the members' nicks behind exactly the prefixes of their modes: @ for o, + for v, and with flag X ~, & and % for q, a and h; all members if the link holds |
| `Njoin.Enter` | src/server/core/misc/numeric.c:59-85 | one member is appended, and a full buffer sent |
| `Njoin.Finish` | src/server/core/misc/numeric.c:106-111 | what is left is sent |
| `Njoin.StripTells` | src/server/proto/irc/irc-server.c:285-303 | which prefixes an item has, and what they mean |
| `Njoin.LineParsed` | src/server/proto/irc/parse.c:195-266 | with its prefix a line is parsed into NJOIN, channel and list |
| `Njoin.Receive` | src/server/proto/irc/irc-server.c:264-376 | the clients found that can join do so with the modes they came with, those that cannot are killed; the forwarded list says who joined and is never longer |
| `Njoin.BurstArrives` | src/server/proto/irc/irc-server.c:264-376 | a burst read by a peer that knows the members and has none of them on the channel: every member joins with its nick, o and v, and with flag X q, a and h |
| `Njoin.AdmittedAll` | src/server/proto/irc/irc-server.c:305-335 | different clients that are known and not on the channel all join |
| `Njoin.AdmittedExact` | src/server/proto/irc/irc-server.c:305-335 | who joins by an item: a known client, not on the channel, not killed, not named before, on a valid channel |
| `Njoin.RoomExact` | src/server/proto/irc/irc-server.c:305-335 | who is on the channel and who is killed after a list |
| `Njoin.AdmittedAppend` | src/server/proto/irc/irc-server.c:281-371 | reading line after line is reading all at once |
| `Njoin.ListedTwice` | src/server/proto/irc/irc-server.c:312-320 | a client listed twice joins once and is killed |
| `Njoin.ReadBack` | src/server/proto/irc/irc-server.c:281-303 | reading a written list gives back every join, once and in order |
| `Njoin.StripItem` | src/server/proto/irc/irc-server.c:285-303 | stripping the prefixes gives back the nick with exactly its modes |
| `Njoin.NoShorterList` | src/server/proto/irc/irc-server.c:281-371 | no list is shorter than the plain writing of what it says |
| `Njoin.WireExact` | src/state/connection/conn.c:1160-1215 | with its server prefix a line arrives whole if and only if both fit into 510 bytes; else joins are lost |
| `Njoin.FullLineLost` | src/server/core/misc/numeric.c:39-112 | with a server name of 35 characters or more every line sent because it was full loses joins |
| `Njoin.NextToken` | src/server/proto/irc/irc-server.c:281-282 | strtok() as the list is read |
| `Ping.TimeoutOnlyWhenSilent` | src/state/connection/conn.c:933-947 | over every run with a clock that does not go back: a ping timeout only after more than PingTimeout + PongTimeout of silence |
| `Ping.SilentIsClosed` | src/state/connection/conn.c:933-947 | a silent peer is closed at the first check more than PongTimeout after its PING, not before |
| `Ping.SilentIsPinged` | src/state/connection/conn.c:933-947 | and pinged at the first check more than PingTimeout after it was heard of |
| `Ping.LoginTimesOut` | src/state/connection/conn.c:950-958 | a connection that does not register is closed at the first check more than PongTimeout after its sign-on |
| `Ping.HeardIsKept` | src/state/connection/conn.c:933-947 | data or a PONG keep the next check from closing |
| `Ping.RunTells` | src/state/connection/conn.c:2104-2117 | lastdata is when the peer was last heard of, and a pending PING followed enough silence |
| `Ping.Connection.CheckStatus` | src/state/connection/conn.c:241-254 | the checks for registered and unregistered connections |
| `Ping.Connection.UpdateReadAccounting` | src/state/connection/conn.c:2104-2121 | data counts only once registered; bytes per second start over with every second and decide about throttling |
| `Ping.Connection.UpdatePing` | src/state/connection/conn-func.c:51-56 | the stamp is set |

## Left out

- A MODE argument that is empty and reached as a mode string: the C code reads on behind its terminator; the model stops there.
- ModeReplay.Replay: the diff is unbounded there; that the reply buffers never cut it is `ModeFits.DiffFits`. The broadcast with its prefix can exceed a line on the wire and is then cut like any message, which is neither part of the replay nor of `ModeWire`.
- ModeFits.DiffFits: for channels whose letter k is single, as `ModeReplay.Replay` needs anyway.
- ModeGrants.KeyExact: for mode strings of at most 20 letters, all that the buffer of a channel holds; the same for ModeGrants.LimitExact.
- ModeGrants.FlagsExact: for letters that are single and texts that fit the mode buffer together with the letters that are set; a letter that finds the buffer full is lost, as `ModeGrants.FlagExact` says.
- Member modes are values in `ChannelModeLoop`; only the mode string of the channel is a buffer there.
- UserMode.ClientMode: the away text a server's mode a sets is not modelled.
- Ban, exception and invite entries of a MODE command are forwarded one by one, outside the broadcast diff; that forwarding is not modelled.
- Request.ParseRequest: works on values, where the C code writes NULs over spaces and keeps pointers into the buffer; CTCP scrubbing, STRICT_RFC, the checks of prefix and arguments and the dispatch are not modelled.
- Numeric replies and all message texts other than MODE, NJOIN and line endings.
- `Network` treats channel modes other than P, topics and keys as absent, and `topserver`, hop counts and WHOWAS entries not at all.
- CHANINFO, which creates channels without a member, and taking mode P off an empty channel are no events of a membership run.
- Network.Server.Destroy: not for This_Server, which only `Client_Exit` destroys when the daemon ends.
- Network.Server.SetModes: P stays on an empty channel, see `Channels.ModedValid`.
- CloseCascade.Pool.DestroyClient: which connections a client's removal writes to is left arbitrary; the removal itself is `Network.Server.Destroy`.
- ServerWalk.Walker.WriteServers: stops where the C code would go on from a client that is gone. Which links a message closes is left arbitrary; clients do not arrive meanwhile. `Client_Destroy` reads its argument after recursive calls as well; that pointer is good under the condition in `ServerWalk.HeldAcross`.
- Select.EventTable.RunCallback: a callback uses the event table in any way that is proper in the sense of `Select.Proper`; all callers in the repository do.
- FD_SETSIZE is 1024 in the model.
- Njoin.Announce: for peers of RFC 1459 the source sends one JOIN and one MODE message for each member and mode instead; that branch is not modelled.
- Njoin.Receive: names the clients by a lookup that does not change while a list is read, except that a killed client is gone.
- Ping.Connection.UpdateReadAccounting: says when to throttle; which clients are exempt and the penalty itself are not modelled.
- Penalties and command limits are arbitrary inputs of `Inbound.Reader.ProcessBuffer`.
- Allocation failure, except where a false result is part of a function's contract (`Buffer.Array`).
- zlib, TLS, iconv, PAM, resolver processes, signals, configuration and logging.
- The login flow, join access decisions, WHO, WHOIS, NAMES and STATS replies.
- The epoll, kqueue, poll and devpoll back ends, and restarting the event library.
- `MatchCaseInsensitiveList`, which splits a list at a separator and calls the matcher.
