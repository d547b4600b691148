# pyIRC server core in Dafny

A model of the in-memory chat state of the pyIRC `IRCServer` and of the code
that changes it. The state is three tables:

- `clients`: socket to nickname, in insertion order;
- `channels`: channel name to the set of nicknames in it, with `general`
  present from construction, keys in insertion order;
- `client_channels`: nickname to the set of channel names it has joined.

The model covers `broadcast_to_channel`, `remove_client` and the body of the
connection loop of `handle_client`. That body reads one line from a
connection and handles it:

- it splits a command at the first space;
- it runs `/nick`, `/join`, `/leave` and `/part`, `/list`, `/users`,
  `/createchannel`, `/msg`, `/help`, `/quit` or the unknown-command reply;
- it routes any other line to a channel.

Every send is an entry `Send(to, text)` of an outbox, in the order the server
makes them.

Modules:

- `Text`: the string operations the server uses. These are ASCII `lower`,
  `split(" ", 1)`, `", ".join`, decimal `str` of a count, Python's string
  order, and `sorted` of a set of nicknames.
- `Chat`: the state as a value (`State`), the well-formedness invariant, and
  the two-way membership invariant `Consistent`. It also has each update of
  the tables as a function (`WithNick`, `WithJoin`, `WithLeave`,
  `WithChannel`, `WithoutClient`), the audience of a broadcast, and the
  lemmas about all of these.
- `Protocol`: the exact reply strings and the classification of a line. It
  has one outcome predicate per handler, and `StepOutcome` for one pass of
  the loop. It also holds the lemmas about a step.
- `Server`: `class IRCServer`, whose fields are the tables. Its methods
  update them in place:
  - `BroadcastToChannel` and `RemoveClient` are loops over sets;
  - there is one method per command handler;
  - `HandleLine` is one pass of the loop;
  - `Serve` is a whole connection.

  Each method is proved against the function or outcome predicate that
  specifies it.

Conventions:

- A socket is a natural number, and the local nickname is a string. Python's
  `None` for "no nickname yet" is `""`; the code treats the two alike, since
  both are falsy and neither is `"admin"`.
- The `HH:MM:SS` clock reading is a parameter.
- Python iterates sets in an order it does not specify. The members of a
  broadcast are visited in an unspecified order, and so are the channels in
  `remove_client`. `next(iter(joined_channels))` also picks an unspecified
  channel. The methods choose with `:|`, and the specifications are
  relational: a broadcast is "each recipient exactly once, nothing else",
  and the fallback channel is "some joined channel".
- A `KeyError` inside the loop ends the connection: the exception is caught,
  the loop breaks, and `remove_client` runs. Two handlers can raise one after
  they have changed a table:
  - `/join` by a nickname whose channel set is gone, which happens after
    another socket with the same nickname disconnected;
  - `/leave` of a channel the nickname's set does not list.

  These are modelled as the partial update, no reply, and the quit flag set.

Where the code's own comments and declarations promise more than it does, the
model follows the code:

- Nicknames are not unique. The comment at server.py:122 promises a check
  that is not there. A second `/nick` with a taken name rebinds this socket,
  and resets that nickname's channel set to `{general}`.
- `/nick` does not take the old nickname out of the channels it was in.
- The lock (server.py:18) is never taken.

`Chat.RepeatedNickBreaksConsistency` shows the consequence on a concrete
state: the two-way membership fails after a repeated `/nick`.

A `/join` that ends the connection breaks the two-way membership in the
source itself. Take two sockets that set the same nickname, and let the
second disconnect; the nickname's set is then gone. A `/join` from the first
socket adds the nickname to the channel (server.py:174), fails on the set
(server.py:175) and ends the loop (server.py:393). The `remove_client` that
follows (server.py:395) skips the channels, because the lookup at
server.py:67 finds no set. The nickname stays in the channel for good.
`Protocol.CrashedJoinBreaksConsistency` and the lemmas cited beside it show
this step by step, and it is why `Protocol.StepKeepsConsistency` excludes a
pass that ends the connection.

## Model

| member | source | states |
|---|---|---|
| Text.Lower | server.py:112 | the command word lower-cased character by character, same length |
| Text.SpaceIndex | server.py:111 | the position of the first space, or the length when there is none |
| Text.SplitOnce | server.py:111-113 | `split(" ", 1)`: one part, the whole string, exactly when there is no space; otherwise the text before the first space (space-free) and everything after it, which rejoin to the input |
| Text.SplitOnceJoined | server.py:111-113 | splitting a space-free word, a space and any rest gives back exactly the word and the rest |
| Text.JoinSnoc | server.py:213-218 | `", ".join` of one more part appends the separator and that part |
| Text.NatToString | server.py:216 | `str(len(members))` is a non-empty string of decimal digits, with a leading zero only for zero |
| Text.NatToStringRoundTrip | server.py:216 | reading the rendered count back as decimal gives the count |
| Text.BelowIrreflexive | server.py:231 | no nickname sorts before itself |
| Text.BelowAsymmetric | server.py:231 | two nicknames never sort before each other |
| Text.BelowTransitive | server.py:231 | the string order used by `sorted` is transitive |
| Text.BelowTotal | server.py:231 | of two different nicknames one sorts before the other |
| Text.Insert | server.py:231 | inserting a new name into a sorted list keeps it strictly sorted and adds exactly that name |
| Text.SortedOf | server.py:231 | `sorted(names)` is strictly increasing and holds exactly the names of the set |
| Text.Sorted | server.py:231 | the insertion loop computes `sorted(names)` |
| Text.SortedUnique | server.py:231 | two strictly sorted lists with the same names are equal, so the sorted listing of a set does not depend on iteration order |
| Chat.InitWellFormed | server.py:15-17 | the constructed state is well formed, and it satisfies the two-way membership |
| Chat.SockIndex | server.py:64 | the position of the socket in the client table when it is registered, and that no entry has it otherwise |
| Chat.FirstWithNick | server.py:46-50 | the first entry of the client table, in insertion order, whose nickname matches; none when no entry matches |
| Chat.SockOfInjective | server.py:46-50 | with distinct sockets, two nicknames that look up the same socket are the same nickname |
| Chat.AudienceAdd | server.py:43-55 | one more member adds its socket to the audience exactly when it has one that is not excluded |
| Chat.AudienceFresh | server.py:43-55 | the socket of a new member is not yet in the audience of the others |
| Chat.BroadcastSnoc | server.py:52-55 | sending to one more socket that was not reached yet extends a broadcast to it |
| Chat.Bind | server.py:124 | `clients[sock] = nick`: an existing entry is replaced where it stands, otherwise the pair is appended; sockets stay distinct |
| Chat.Unbind | server.py:81 | `del clients[sock]`: the entry is cut out and the other entries stay in their order; an unregistered socket changes nothing; sockets stay distinct |
| Chat.NickWellFormed | server.py:123-135 | `/nick` keeps the tables well formed |
| Chat.JoinWellFormed | server.py:173-175 | a join keeps the tables well formed |
| Chat.LeaveWellFormed | server.py:199-201 | a leave keeps the tables well formed |
| Chat.CreateWellFormed | server.py:265-266 | creating a new channel keeps the names distinct and equal to the keys |
| Chat.RemoveWellFormed | server.py:61-81 | `remove_client` keeps the tables well formed and the channel keys unchanged |
| Chat.JoinMakesMember | server.py:173-175 | after a join the nickname is in the channel and the channel is in the nickname's set; the keys are unchanged |
| Chat.JoinKeepsConsistency | server.py:173-175 | a join keeps the two-way membership |
| Chat.LeaveEndsMembership | server.py:199-201 | after a leave the nickname is in neither table for that channel, the two-way membership holds and the keys are unchanged |
| Chat.CreateAddsEmptyChannel | server.py:265-266 | creating adds exactly the key `c` with no members, leaves every other channel and the nickname table unchanged, and keeps the two-way membership |
| Chat.NickFreshKeepsConsistency | server.py:123-135 | `/nick` with a nickname that has no channel set keeps the two-way membership |
| Chat.RepeatedNickBreaksConsistency | server.py:123-135 | on a concrete consistent state, `/nick` with a nickname that is already in another channel breaks the two-way membership |
| Chat.RemoveCleansUp | server.py:61-81 | for a registered socket, the socket and the nickname's set are gone, the nickname is out of every existing channel the set listed, and the channel names stay |
| Chat.RemoveKeepsConsistency | server.py:61-81 | removal keeps the two-way membership and then leaves the removed nickname in no channel |
| Chat.DropKeepsConsistency | server.py:67-81 | discarding a nickname from the channels its set lists and deleting the set keeps the two-way membership |
| Chat.RemoveIdempotent | server.py:61-64 | removing an unregistered socket changes nothing, so removing a socket twice is removing it once |
| Protocol.HelpText | server.py:314-329 | the help text always starts with the common text, and is longer exactly for `admin` |
| Protocol.LeftNoticeInjective | server.py:74-78 | departure notices of one nickname for two channels differ unless the channels do |
| Protocol.ListEntries | server.py:213-218 | one `#name (count users)` entry per channel, in key order, with the channel's member count |
| Protocol.ListEntriesAfterCreate | server.py:213-218 | after creating a channel the entries are the old ones plus `#c (0 users)` at the end |
| Protocol.ListAfterCreate | server.py:212-221 | after creating a channel the `/list` reply is the old reply with `, #c (0 users)` appended |
| Protocol.Classify | server.py:106-113 | the empty line ends the loop; a line not starting with `/` is a chat line; a command's word is the lower-cased text before the first space and its argument the rest, or `""` without a space |
| Protocol.ClassifyCommand | server.py:110-113 | a space-free word starting with `/`, a space and any rest is that command, lower-cased, with exactly the rest as argument; without the space the argument is empty |
| Protocol.NoticesStep | server.py:67-78 | one more channel's departure broadcast extends the notices by exactly that channel's, with no send repeated |
| Protocol.NoticesSkip | server.py:69 | a listed channel that no longer exists contributes no notice |
| Protocol.StepKeepsChannels | server.py:101-388 | one pass of the loop keeps the tables well formed; the channel names only grow, and only `admin`'s `/createchannel` of a new name changes them, by appending it |
| Protocol.NickKeepsChannels | server.py:115-145 | `/nick` changes no channel name or key |
| Protocol.JoinKeepsChannels | server.py:147-182 | `/join` changes no channel name or key, whichever way it ends |
| Protocol.LeaveKeepsChannels | server.py:184-210 | `/leave` changes no channel name or key, whichever way it ends |
| Protocol.CreateKeepsChannels | server.py:240-271 | `/createchannel` adds no key or appends exactly the new name, only for `admin` |
| Protocol.StepKeepsConsistency | server.py:147-388 | every pass that does not end the connection and is not `/nick` keeps the two-way membership; a pass that ends it can break it (see `Protocol.CrashedJoinBreaksConsistency`) |
| Protocol.FreshNickKeepsConsistency | server.py:115-145 | `/nick` with a nickname that has no channel set keeps the two-way membership |
| Protocol.JoinMissingChannel | server.py:164-171 | `/join` of a channel that does not exist answers only `ERROR: Channel c does not exist. Only the admin can create new channels.` and changes nothing |
| Protocol.JoinWithoutSetEnds | server.py:173-175 | `/join` of an existing channel by a nickname with no set adds the nickname to the channel, sends nothing and ends the connection |
| Protocol.JoinGeneralLine | server.py:110-113 | the line `/join general` is the command `/join` with argument `general` |
| Protocol.TwoBobsReached | server.py:123-135 | two `/nick bob` from two sockets on the new server leave both sockets named `bob`, `bob` in `general`, and the two-way membership intact |
| Protocol.SecondBobRemoved | server.py:61-81 | removing the second socket takes `bob` out of `general` and drops `bob`'s set while the first socket is still `bob`; the membership still holds |
| Protocol.CrashedJoinStep | server.py:173-175 | from there, the first socket's `/join general` adds `bob` to `general`, sends nothing and ends the connection |
| Protocol.CrashedJoinBreaksConsistency | server.py:61-81 | the removal of that socket leaves `bob` in `general` with no set: the two-way membership is broken |
| Protocol.JoinedBothWays | server.py:173-182 | a successful `/join c` puts the nickname in `c` and `c` in the nickname's set, answers `You have joined c` first, and the notice does not go back to the sender |
| Protocol.LeaveTwice | server.py:199-210 | `/leave c` by a member succeeds and ends both memberships; the same line again answers only `ERROR: You are not in channel c` and changes nothing |
| Protocol.CreateChannelCases | server.py:240-271 | `/createchannel` answers the sender alone: nickname unset, not `admin` (whether or not the channel exists), existing channel each give their error with no change; for `admin` and a new name exactly the empty channel is added |
| Protocol.PrivateMessageDelivery | server.py:273-312 | `/msg t text` sends `PRIVATE from` to the first socket holding `t` and then `PRIVATE to` back to the sender, or answers `ERROR: User t not found`, and changes nothing |
| Protocol.ChatRouting | server.py:340-388 | a chat line goes to the named `#channel` only when it exists and the sender is in it; otherwise to some channel of the sender's set, with the body after the prefix when a `#name ` prefix was stripped; with no such channel only `ERROR: You haven't joined any channels` is sent. The sender's echo `[ts] [c] nick: body` comes first, every later send carries the same text, and the broadcast reaches exactly the channel's other members |
| Server.IRCServer.constructor | server.py:15-17 | the tables start as `general` with no members and no clients |
| Server.IRCServer.FindSocket | server.py:289-295 | the first socket in insertion order whose nickname matches, or none |
| Server.IRCServer.BroadcastToChannel | server.py:34-59 | the message goes exactly once to each socket of a member of the channel that is not excluded, to no one else, and to no one for an unknown channel |
| Server.IRCServer.RemoveClient | server.py:61-86 | the new tables are those of `WithoutClient`, and the sends are exactly one departure notice per listed existing channel and per other member with a socket, none twice |
| Server.IRCServer.LeaveChannels | server.py:67-78 | the nickname is discarded from exactly the existing channels of its set, the other tables are unchanged, and the notices are exactly those for that set |
| Server.IRCServer.Nick | server.py:115-145 | `/nick` as `NickOutcome`: the empty-name error, or the socket bound, `general` joined, the welcome first and the join notice to the other members of `general` |
| Server.IRCServer.Join | server.py:147-182 | `/join` as `JoinOutcome`, the three error replies and the failing lookup included |
| Server.IRCServer.Leave | server.py:184-210 | `/leave` and `/part` as `LeaveOutcome`, the error replies included |
| Server.IRCServer.LeaveMember | server.py:199-206 | a member leaves the channel, then its set, or the connection ends when the set does not list it; the reply comes first, then the notice to every remaining member |
| Server.IRCServer.Users | server.py:223-238 | `/users` as `UsersOutcome`: the members in sorted order, or the error replies |
| Server.IRCServer.CreateChannel | server.py:240-271 | `/createchannel` as `CreateOutcome` |
| Server.IRCServer.PrivateMessage | server.py:273-312 | `/msg` as `MsgOutcome` |
| Server.IRCServer.ChannelMessage | server.py:340-388 | a chat line as `ChatOutcome` |
| Server.IRCServer.HandleLine | server.py:101-388 | one pass of the loop as `StepOutcome`; the channel names only grow |
| Server.IRCServer.Serve | server.py:88-395 | the greeting is the first send, and after the loop the socket is no longer registered; the channel names only grow |

## Left out

- Sockets and framing: creating, binding and accepting sockets, `recv(1024)`, UTF-8 encoding and decoding, and `strip()`. A line arrives decoded and stripped, and a read of nothing is the end of the lines given to `Serve`.
- Threads and `self.lock`: the model handles one line at a time, for one connection at a time.
- Send failures: every send succeeds. The re-entrant `remove_client` on a failed send inside `broadcast_to_channel` (server.py:57-59) is not modelled.
- Closing the socket (server.py:83-86): it has no effect on the tables.
- Debug output: every `print` and `traceback` call.
- The clock: `datetime.now()` becomes the timestamp parameter.
- Exceptions other than the two `KeyError` paths described above, since no other handler can raise one on the tables.
- Text.Lower: lower-cases only the ASCII letters, not the rest of Unicode, because Dafny has no case tables.
- Server.IRCServer.RemoveClient: states the set of departure notices and that none repeats, but not that each channel's notices come out together.
- Server.IRCServer.Serve: states the greeting and the final removal, not the sends of each pass; those are in `HandleLine`'s contract.
- client.py is not part of this model: it is the interactive terminal client.
