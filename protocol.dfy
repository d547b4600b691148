/** What one inbound line does: how it is classified, the exact reply
    texts, and for each command the outcome it must have (new state, new
    local nickname, outbox, whether the connection ends). The predicates
    here describe the handlers of `handle_client`; the class in module
    Server implements them. */
module Protocol {
  import opened Text
  import opened Chat

  // ---------------------------------------------------------------------
  // Reply texts

  const Greeting := "Welcome to PyIRC Server! Please set your nickname with /nick <nickname>"
  const NickEmpty := "ERROR: Nickname cannot be empty"
  const NeedNickHint := "ERROR: You must set a nickname first with /nick <nickname>"
  const NeedNick := "ERROR: You must set a nickname first"
  const JoinWhich := "ERROR: Please specify a channel to join"
  const LeaveWhich := "ERROR: Please specify a channel to leave"
  const UsersWhich := "ERROR: Please specify a channel"
  const AdminOnly := "ERROR: Only admin can create channels"
  const CreateWhich := "ERROR: Please specify a channel name to create"
  const MsgUsage := "ERROR: Usage: /msg <nickname> <message>"
  const NoChannels := "ERROR: You haven't joined any channels"
  const Goodbye := "Goodbye!"

  const HelpCommon :=
    "Available commands:\n"
    + "/nick <nickname> - Set your nickname\n"
    + "/join <channel> - Join a channel\n"
    + "/leave <channel> - Leave a channel\n"
    + "/list - List available channels\n"
    + "/users <channel> - List users in a channel\n"
    + "/msg <nickname> <message> - Send a private message\n"
    + "/help - Show this help message\n"
    + "/quit - Disconnect from the server\n"
  const HelpAdmin := "/createchannel <channel> - Create a new channel (admin only)\n"

  function Welcome(n: Nick): string { "Welcome " + n + "! You have been added to #general" }
  function JoinedGeneralNotice(n: Nick): string { "SYSTEM: " + n + " has joined #general" }
  function NoChannelToJoin(c: Name): string
  {
    "ERROR: Channel " + c + " does not exist. Only the admin can create new channels."
  }
  function JoinedReply(c: Name): string { "You have joined " + c }
  function JoinNotice(n: Nick, c: Name): string { "SYSTEM: " + n + " has joined " + c }
  function LeftReply(c: Name): string { "You have left " + c }
  /** The notice for a `/leave` and for each channel of a disconnecting client */
  function LeftNotice(n: Nick, c: Name): string { "SYSTEM: " + n + " has left " + c }
  function NotInChannel(c: Name): string { "ERROR: You are not in channel " + c }
  function NoSuchChannel(c: Name): string { "ERROR: Channel " + c + " does not exist" }
  function UsersReply(c: Name, names: seq<Nick>): string { "Users in " + c + ": " + Join(", ", names) }
  function AlreadyExists(c: Name): string { "ERROR: Channel " + c + " already exists" }
  function Created(c: Name): string { "Channel " + c + " created. Use /join " + c + " to join it." }
  function PrivateFrom(ts: string, from: Nick, text: string): string
  {
    "[" + ts + "] PRIVATE from " + from + ": " + text
  }
  function PrivateTo(ts: string, to: Nick, text: string): string
  {
    "[" + ts + "] PRIVATE to " + to + ": " + text
  }
  function UserNotFound(n: Nick): string { "ERROR: User " + n + " not found" }
  function UnknownCommand(w: string): string { "ERROR: Unknown command " + w }
  function ChatLine(ts: string, c: Name, n: Nick, body: string): string
  {
    "[" + ts + "] [" + c + "] " + n + ": " + body
  }

  /** The `/help` text: the common command list, plus the admin command
      for `admin` only */
  function HelpText(n: Nick): (r: string)
    ensures HelpCommon <= r
    ensures |r| > |HelpCommon| <==> n == Admin
  {
    if n == Admin then HelpCommon + HelpAdmin else HelpCommon
  }

  /** The departure notice differs per channel */
  lemma LeftNoticeInjective(n: Nick, c: Name, d: Name)
    requires LeftNotice(n, c) == LeftNotice(n, d)
    ensures c == d
  {
    var p := "SYSTEM: " + n + " has left ";
    assert LeftNotice(n, c) == p + c && LeftNotice(n, d) == p + d;
    assert c == (p + c)[|p|..];
  }

  // ---------------------------------------------------------------------
  // `/list`

  /** The `/list` entry of one channel */
  function Entry(name: Name, count: nat): string
  {
    "#" + name + " (" + NatToString(count) + " users)"
  }

  /** One entry per channel, in table order */
  function ListEntries(names: seq<Name>, channels: map<Name, set<Nick>>): (r: seq<string>)
    requires forall c | c in names :: c in channels
    ensures |r| == |names|
    ensures forall i | 0 <= i < |names| :: r[i] == Entry(names[i], |channels[names[i]]|)
  {
    if names == [] then
      []
    else
      [Entry(names[0], |channels[names[0]]|)] + ListEntries(names[1..], channels)
  }

  function ListReply(st: State): string
    requires forall c | c in st.channelNames :: c in st.channels
  {
    "Available channels: " + Join(", ", ListEntries(st.channelNames, st.channels))
  }

  /** After `/createchannel c` the entries are the old ones followed by
      `#c (0 users)` */
  lemma ListEntriesAfterCreate(st: State, c: Name)
    requires forall d | d in st.channelNames :: d in st.channels
    requires c !in st.channels
    ensures ListEntries(WithChannel(st, c).channelNames, WithChannel(st, c).channels)
      == ListEntries(st.channelNames, st.channels) + [Entry(c, 0)]
  {
    var st' := WithChannel(st, c);
    var old_ := ListEntries(st.channelNames, st.channels);
    var new_ := ListEntries(st'.channelNames, st'.channels);
    forall i | 0 <= i < |st.channelNames| ensures new_[i] == old_[i] {
      assert st.channelNames[i] in st.channels;
    }
    assert st'.channelNames[|st.channelNames|] == c;
  }

  /** So `/list` after `/createchannel c` shows `#c (0 users)` last */
  lemma ListAfterCreate(st: State, c: Name)
    requires forall d | d in st.channelNames :: d in st.channels
    requires st.channelNames != [] && c !in st.channels
    ensures ListReply(WithChannel(st, c)) == ListReply(st) + ", #" + c + " (0 users)"
  {
    var entries := ListEntries(st.channelNames, st.channels);
    ListEntriesAfterCreate(st, c);
    JoinSnoc(", ", entries, Entry(c, 0));
    assert Entry(c, 0) == "#" + c + " (0 users)" by { assert NatToString(0) == "0"; }
    calc {
      ListReply(WithChannel(st, c));
      "Available channels: " + Join(", ", entries + [Entry(c, 0)]);
      "Available channels: " + (Join(", ", entries) + ", " + Entry(c, 0));
      ListReply(st) + ", " + Entry(c, 0);
    }
  }

  // ---------------------------------------------------------------------
  // Classifying a line

  datatype Input =
    | Blank                               // nothing was read: the peer is gone
    | Command(word: string, args: string) // a line starting with `/`
    | Plain(body: string)                 // anything else: a channel message

  /** A line starting with `/` is split at its first space; the word before
      it, lower-cased, is the command and the rest is its argument (`""`
      without a space) */
  function Classify(line: string): (r: Input)
    ensures r == Blank <==> line == ""
    ensures r.Plain? <==> line != "" && line[0] != '/'
    ensures r.Plain? ==> r.body == line
    ensures r.Command? ==> ' ' !in line ==> r.word == Lower(line) && r.args == ""
    ensures r.Command? ==> ' ' in line ==>
      exists w :: ' ' !in w && line == w + " " + r.args && r.word == Lower(w)
  {
    if line == "" then Blank
    else if line[0] == '/' then
      var parts := SplitOnce(line);
      Command(Lower(parts[0]), if |parts| > 1 then parts[1] else "")
    else Plain(line)
  }

  /** Rendering a command word and its argument and classifying the line
      gives them back */
  lemma ClassifyCommand(w: string, a: string)
    requires w != [] && w[0] == '/' && ' ' !in w
    ensures Classify(w + " " + a) == Command(Lower(w), a)
    ensures Classify(w) == Command(Lower(w), "")
  {
    SplitOnceJoined(w, a);
  }

  // ---------------------------------------------------------------------
  // Outcomes of the handlers

  /** `out` is the sender's reply `first` followed by a broadcast of `text`
      to `to` */
  ghost predicate ReplyThenBroadcast(out: seq<Send>, first: Send, to: set<Sock>, text: string)
  {
    |out| >= 1 && out[0] == first && IsBroadcast(out[1..], to, text)
  }

  /** `/nick args` */
  ghost predicate NickOutcome(st: State, sock: Sock, nick: Nick, args: string,
                              st': State, nick': Nick, out: seq<Send>)
    requires WellFormed(st)
  {
    if args == "" then
      st' == st && nick' == nick && out == [Send(sock, NickEmpty)]
    else
      && st' == WithNick(st, sock, args) && nick' == args
      && ReplyThenBroadcast(out, Send(sock, Welcome(args)),
                            Recipients(st', General, Some(sock)), JoinedGeneralNotice(args))
  }

  /** `/join args`; `quit` marks the lookup failure of a nickname with no
      channel set, which ends the connection with the channel already
      updated and nothing sent */
  ghost predicate JoinOutcome(st: State, sock: Sock, nick: Nick, args: string,
                              st': State, out: seq<Send>, quit: bool)
  {
    if nick == "" then st' == st && !quit && out == [Send(sock, NeedNickHint)]
    else if args == "" then st' == st && !quit && out == [Send(sock, JoinWhich)]
    else if args !in st.channels then st' == st && !quit && out == [Send(sock, NoChannelToJoin(args))]
    else
      && st' == WithJoin(st, nick, args)
      && quit == (nick !in st.clientChannels)
      && (quit ==> out == [])
      && (!quit ==> ReplyThenBroadcast(out, Send(sock, JoinedReply(args)),
                                       Recipients(st', args, Some(sock)), JoinNotice(nick, args)))
  }

  /** `/leave args` and `/part args`; `quit` marks the failed removal from
      a channel set that does not list the channel */
  ghost predicate LeaveOutcome(st: State, sock: Sock, nick: Nick, args: string,
                               st': State, out: seq<Send>, quit: bool)
  {
    if nick == "" then st' == st && !quit && out == [Send(sock, NeedNick)]
    else if args == "" then st' == st && !quit && out == [Send(sock, LeaveWhich)]
    else if args in st.channels && nick in st.channels[args] then
      && st' == WithLeave(st, nick, args)
      && quit == !(nick in st.clientChannels && args in st.clientChannels[nick])
      && (quit ==> out == [])
      && (!quit ==> ReplyThenBroadcast(out, Send(sock, LeftReply(args)),
                                       Recipients(st', args, None), LeftNotice(nick, args)))
    else st' == st && !quit && out == [Send(sock, NotInChannel(args))]
  }

  /** `/users args`: the members of the channel in sorted order */
  ghost predicate UsersOutcome(st: State, sock: Sock, args: string, out: seq<Send>)
  {
    if args == "" then out == [Send(sock, UsersWhich)]
    else if args in st.channels then out == [Send(sock, UsersReply(args, SortedOf(st.channels[args])))]
    else out == [Send(sock, NoSuchChannel(args))]
  }

  /** `/createchannel args`: only `admin`, only for a new name */
  ghost predicate CreateOutcome(st: State, sock: Sock, nick: Nick, args: string,
                                st': State, out: seq<Send>)
  {
    if nick == "" then st' == st && out == [Send(sock, NeedNick)]
    else if nick != Admin then st' == st && out == [Send(sock, AdminOnly)]
    else if args == "" then st' == st && out == [Send(sock, CreateWhich)]
    else if args in st.channels then st' == st && out == [Send(sock, AlreadyExists(args))]
    else st' == WithChannel(st, args) && out == [Send(sock, Created(args))]
  }

  /** `/msg target text`: one private message to the first socket holding
      `target` and one echo to the sender */
  ghost predicate MsgOutcome(st: State, sock: Sock, nick: Nick, args: string, ts: string, out: seq<Send>)
  {
    if nick == "" then out == [Send(sock, NeedNick)]
    else
      var parts := SplitOnce(args);
      if |parts| < 2 then out == [Send(sock, MsgUsage)]
      else match SockOf(st.clients, parts[0])
        case Some(t) =>
          out == [Send(t, PrivateFrom(ts, nick, parts[1])), Send(sock, PrivateTo(ts, parts[0], parts[1]))]
        case None => out == [Send(sock, UserNotFound(parts[0]))]
  }

  /** A `#name text` prefix names a channel the sender may post to when the
      channel exists and the sender is in it; the text after the space is
      then the message */
  function Addressed(st: State, nick: Nick, line: string): Option<(Name, string)>
  {
    if line != "" && line[0] == '#' && ' ' in line then
      var parts := SplitOnce(line);
      var name := parts[0][1..];
      if name in st.channels && nick in st.channels[name] then Some((name, parts[1])) else None
    else None
  }

  /** The sender's echo of a channel message, then the same line to every
      other member of the channel */
  ghost predicate PostedTo(st: State, sock: Sock, nick: Nick, c: Name, body: string, ts: string,
                           out: seq<Send>)
  {
    ReplyThenBroadcast(out, Send(sock, ChatLine(ts, c, nick, body)),
                       Recipients(st, c, Some(sock)), ChatLine(ts, c, nick, body))
  }

  /** A plain line: to the addressed channel if there is one, otherwise to
      some channel of the sender's set (which one is unspecified) */
  ghost predicate ChatOutcome(st: State, sock: Sock, nick: Nick, line: string, ts: string, out: seq<Send>)
  {
    if nick == "" then out == [Send(sock, NeedNickHint)]
    else
      var addressed := Addressed(st, nick, line);
      var body := if addressed.Some? then addressed.value.1 else line;
      if addressed.Some? && addressed.value.0 != "" then
        PostedTo(st, sock, nick, addressed.value.0, body, ts, out)
      else if Listed(st, nick) == {} then
        out == [Send(sock, NoChannels)]
      else
        exists c | c in Listed(st, nick) :: PostedTo(st, sock, nick, c, body, ts, out)
  }

  /** The commands that only answer the sender: `/list`, `/users`,
      `/msg`, `/help` and any unknown word */
  ghost predicate QueryOutcome(st: State, sock: Sock, nick: Nick, w: string, a: string, ts: string,
                               out: seq<Send>)
    requires WellFormed(st)
  {
    if w == "/list" then
      out == [Send(sock, ListReply(st))]
    else if w == "/users" then
      UsersOutcome(st, sock, a, out)
    else if w == "/msg" then
      MsgOutcome(st, sock, nick, a, ts, out)
    else if w == "/help" then
      out == [Send(sock, HelpText(nick))]
    else
      out == [Send(sock, UnknownCommand(w))]
  }

  /** One pass of the connection loop with the line `line` */
  ghost predicate StepOutcome(st: State, sock: Sock, nick: Nick, line: string, ts: string,
                              st': State, nick': Nick, out: seq<Send>, quit: bool)
    requires WellFormed(st)
  {
    match Classify(line)
    case Blank =>
      st' == st && nick' == nick && out == [] && quit
    case Plain(_) =>
      st' == st && nick' == nick && !quit && ChatOutcome(st, sock, nick, line, ts, out)
    case Command(w, a) =>
      if w == "/nick" then
        !quit && NickOutcome(st, sock, nick, a, st', nick', out)
      else if w == "/join" then
        nick' == nick && JoinOutcome(st, sock, nick, a, st', out, quit)
      else if w == "/leave" || w == "/part" then
        nick' == nick && LeaveOutcome(st, sock, nick, a, st', out, quit)
      else if w == "/createchannel" then
        nick' == nick && !quit && CreateOutcome(st, sock, nick, a, st', out)
      else if w == "/quit" then
        st' == st && nick' == nick && quit && out == [Send(sock, Goodbye)]
      else
        st' == st && nick' == nick && !quit && QueryOutcome(st, sock, nick, w, a, ts, out)
  }

  /** No send appears twice */
  ghost predicate NoRepeats(out: seq<Send>)
  {
    forall i, j | 0 <= i < j < |out| :: out[i] != out[j]
  }

  ghost function Sent(out: seq<Send>): set<Send>
  {
    set i | 0 <= i < |out| :: out[i]
  }

  /** The notices for the channels `done` of nickname `n`: one per
      existing channel and per socket reached by a broadcast to that
      channel's other members, never to `sock` itself */
  ghost function Notices(st: State, n: Nick, sock: Sock, done: set<Name>): set<Send>
  {
    set c, t | c in done && c in st.channels && t in Audience(st.clients, st.channels[c] - {n}, Some(sock))
      :: Send(t, LeftNotice(n, c))
  }

  /** The departure notices of `remove_client(sock)`: exactly one
      `has left` notice per channel of the nickname's set and per remaining
      member of that channel with a socket, and nothing else */
  ghost predicate Departures(st: State, sock: Sock, out: seq<Send>)
  {
    match SockIndex(st.clients, sock)
    case None => out == []
    case Some(k) =>
      var n := st.clients[k].nick;
      NoRepeats(out) && Sent(out) == Notices(st, n, sock, Listed(st, n))
  }

  /** One more channel's broadcast extends the notices by that channel's */
  lemma NoticesStep(st: State, n: Nick, sock: Sock, done: set<Name>, c: Name,
                    out: seq<Send>, b: seq<Send>)
    requires c in st.channels && c !in done
    requires NoRepeats(out) && Sent(out) == Notices(st, n, sock, done)
    requires IsBroadcast(b, Audience(st.clients, st.channels[c] - {n}, Some(sock)), LeftNotice(n, c))
    ensures NoRepeats(out + b) && Sent(out + b) == Notices(st, n, sock, done + {c})
  {
    var aud := Audience(st.clients, st.channels[c] - {n}, Some(sock));
    var added := set t | t in aud :: Send(t, LeftNotice(n, c));
    assert Sent(b) == added by {
      forall x | x in Sent(b) ensures x in added {
        var i :| 0 <= i < |b| && b[i] == x;
        assert b[i].to in Targets(b);
      }
      forall x | x in added ensures x in Sent(b) {
        var t :| t in aud && x == Send(t, LeftNotice(n, c));
        assert t in Targets(b);
        var i :| 0 <= i < |b| && b[i].to == t;
        assert b[i] == x;
      }
    }
    assert Notices(st, n, sock, done + {c}) == Notices(st, n, sock, done) + added;
    var ob := out + b;
    assert Sent(ob) == Sent(out) + Sent(b) by {
      forall x | x in Sent(ob) ensures x in Sent(out) + Sent(b) {
        var i :| 0 <= i < |ob| && ob[i] == x;
        if i < |out| { assert out[i] == x; } else { assert b[i - |out|] == x; }
      }
      forall x | x in Sent(out) ensures x in Sent(ob) {
        var i :| 0 <= i < |out| && out[i] == x;
        assert ob[i] == x;
      }
      forall x | x in Sent(b) ensures x in Sent(ob) {
        var i :| 0 <= i < |b| && b[i] == x;
        assert ob[|out| + i] == x;
      }
    }
    forall i, j | 0 <= i < j < |ob| ensures ob[i] != ob[j] {
      if j < |out| {
        assert ob[i] == out[i] && ob[j] == out[j];
      } else if i >= |out| {
        assert ob[i] == b[i - |out|] && ob[j] == b[j - |out|];
      } else {
        assert out[i] in Sent(out);
        var d, t :| d in done && d in st.channels
          && t in Audience(st.clients, st.channels[d] - {n}, Some(sock))
          && out[i] == Send(t, LeftNotice(n, d));
        if ob[i] == ob[j] {
          assert ob[j] == b[j - |out|];
          LeftNoticeInjective(n, d, c);
        }
      }
    }
  }

  /** A listed channel that does not exist adds no notice */
  lemma NoticesSkip(st: State, n: Nick, sock: Sock, done: set<Name>, c: Name)
    requires c !in st.channels
    ensures Notices(st, n, sock, done + {c}) == Notices(st, n, sock, done)
  {
  }

  // ---------------------------------------------------------------------
  // Properties of one step

  /** Every step keeps the state well formed and the channel names only
      grow; the only step that adds a name is `admin`'s `/createchannel`
      of a new name, which appends it */
  lemma StepKeepsChannels(st: State, sock: Sock, nick: Nick, line: string, ts: string,
                          st': State, nick': Nick, out: seq<Send>, quit: bool)
    requires WellFormed(st)
    requires StepOutcome(st, sock, nick, line, ts, st', nick', out, quit)
    ensures WellFormed(st')
    ensures st.channelNames <= st'.channelNames
    ensures st.channels.Keys <= st'.channels.Keys
    ensures st'.channelNames != st.channelNames ==>
      && Classify(line).Command? && Classify(line).word == "/createchannel"
      && nick == Admin && Classify(line).args !in st.channels
      && st'.channelNames == st.channelNames + [Classify(line).args]
  {
    match Classify(line)
    case Blank =>
    case Plain(_) =>
    case Command(w, a) =>
      if w == "/nick" {
        NickKeepsChannels(st, sock, nick, a, st', nick', out);
      } else if w == "/join" {
        JoinKeepsChannels(st, sock, nick, a, st', out, quit);
      } else if w == "/leave" || w == "/part" {
        LeaveKeepsChannels(st, sock, nick, a, st', out, quit);
      } else if w == "/createchannel" {
        CreateKeepsChannels(st, sock, nick, a, st', out);
      }
  }

  /** `/nick` keeps the channel table's keys and names */
  lemma NickKeepsChannels(st: State, sock: Sock, nick: Nick, a: string,
                          st': State, nick': Nick, out: seq<Send>)
    requires WellFormed(st) && NickOutcome(st, sock, nick, a, st', nick', out)
    ensures WellFormed(st') && st'.channelNames == st.channelNames
    ensures st.channels.Keys == st'.channels.Keys
  {
    NickWellFormed(st, sock, a);
  }

  /** `/join` keeps the channel table's keys and names, on the failure
      path too */
  lemma JoinKeepsChannels(st: State, sock: Sock, nick: Nick, a: string,
                          st': State, out: seq<Send>, quit: bool)
    requires WellFormed(st) && JoinOutcome(st, sock, nick, a, st', out, quit)
    ensures WellFormed(st') && st'.channelNames == st.channelNames
    ensures st.channels.Keys == st'.channels.Keys
  {
    if a in st.channels {
      JoinWellFormed(st, nick, a);
    }
  }

  /** `/leave` keeps the channel table's keys and names, on the failure
      path too */
  lemma LeaveKeepsChannels(st: State, sock: Sock, nick: Nick, a: string,
                           st': State, out: seq<Send>, quit: bool)
    requires WellFormed(st) && LeaveOutcome(st, sock, nick, a, st', out, quit)
    ensures WellFormed(st') && st'.channelNames == st.channelNames
    ensures st.channels.Keys == st'.channels.Keys
  {
    if a in st.channels {
      LeaveWellFormed(st, nick, a);
    }
  }

  /** `/createchannel` either changes no name or appends the new one */
  lemma CreateKeepsChannels(st: State, sock: Sock, nick: Nick, a: string,
                            st': State, out: seq<Send>)
    requires WellFormed(st) && CreateOutcome(st, sock, nick, a, st', out)
    ensures WellFormed(st') && st.channels.Keys <= st'.channels.Keys
    ensures st'.channelNames == st.channelNames ||
      (nick == Admin && a !in st.channels && st'.channelNames == st.channelNames + [a])
  {
    if a !in st.channels {
      CreateWellFormed(st, a);
    }
  }

  /** Every step other than `/nick` that does not end the connection keeps
      the two-way membership */
  lemma StepKeepsConsistency(st: State, sock: Sock, nick: Nick, line: string, ts: string,
                             st': State, nick': Nick, out: seq<Send>, quit: bool)
    requires WellFormed(st) && Consistent(st)
    requires StepOutcome(st, sock, nick, line, ts, st', nick', out, quit)
    requires !quit
    requires !(Classify(line).Command? && Classify(line).word == "/nick")
    ensures Consistent(st')
  {
    match Classify(line)
    case Blank =>
    case Plain(_) =>
    case Command(w, a) =>
      if w == "/join" && nick != "" && a != "" && a in st.channels {
        JoinKeepsConsistency(st, nick, a);
      } else if (w == "/leave" || w == "/part") && nick != "" && a != ""
                && a in st.channels && nick in st.channels[a] {
        LeaveEndsMembership(st, nick, a);
      } else if w == "/createchannel" && nick == Admin && a != "" && a !in st.channels {
        CreateAddsEmptyChannel(st, a);
      }
  }

  /** Two sockets named `bob`, both in `general` through `bob`'s one set */
  function TwoBobs(): State
  {
    State([Client(1, "bob"), Client(2, "bob")], [General],
          map[General := {"bob"}], map["bob" := {General}])
  }

  /** Socket 1 still named `bob` after socket 2 left: `bob` has no set */
  function OneBobUnlisted(): State
  {
    State([Client(1, "bob")], [General], map[General := {}], map[])
  }

  /** Two `/nick bob` from sockets 1 and 2 on the fresh server reach
      `TwoBobs`, where the two-way membership holds */
  lemma TwoBobsReached()
    ensures WellFormed(WithNick(Init(), 1, "bob"))
    ensures WithNick(WithNick(Init(), 1, "bob"), 2, "bob") == TwoBobs()
    ensures WellFormed(TwoBobs()) && Consistent(TwoBobs())
  {
    var s1 := WithNick(Init(), 1, "bob");
    assert SockIndex([], 1) == None;
    assert s1.clients == [Client(1, "bob")];
    assert {} + {"bob"} == {"bob"};
    assert s1.channels == map[General := {"bob"}];
    var s2 := WithNick(s1, 2, "bob");
    assert SockIndex(s1.clients, 2) == None;
    assert s2.clients == [Client(1, "bob"), Client(2, "bob")];
    assert {"bob"} + {"bob"} == {"bob"};
    assert s2.channels == map[General := {"bob"}];
    assert s2.clientChannels == map["bob" := {General}];
  }

  /** Removing socket 2 of `TwoBobs` takes `bob` out of `general` and drops
      `bob`'s set, though socket 1 is still named `bob` */
  lemma SecondBobRemoved()
    ensures WellFormed(TwoBobs())
    ensures WithoutClient(TwoBobs(), 2) == OneBobUnlisted()
    ensures WellFormed(OneBobUnlisted()) && Consistent(OneBobUnlisted())
  {
    var st := TwoBobs();
    assert SockIndex(st.clients, 2) == Some(1);
    assert Unbind(st.clients, 2) == [Client(1, "bob")];
    var left := WithoutClient(st, 2).channels;
    assert General in left && left[General] == {};
    assert left == map[General := {}];
    assert WithoutClient(st, 2).clientChannels == map[];
  }

  /** `/join c` of an existing channel by a nickname with no set adds the
      nickname to `c`, then fails on the missing set, sends nothing and ends
      the connection */
  lemma JoinWithoutSetEnds(st: State, sock: Sock, nick: Nick, line: string, ts: string, c: Name)
    requires WellFormed(st)
    requires Classify(line) == Command("/join", c)
    requires nick != "" && c != "" && c in st.channels && nick !in st.clientChannels
    ensures StepOutcome(st, sock, nick, line, ts, WithJoin(st, nick, c), nick, [], true)
  {
  }

  /** The line `/join general` is the command `/join` with argument `general` */
  lemma JoinGeneralLine(line: string)
    requires line == "/join general"
    ensures Classify(line) == Command("/join", "general")
  {
    var w, a := "/join", "general";
    assert line == w + " " + a;
    ClassifyCommand(w, a);
    assert Lower(w) == w;
  }

  /** Socket 1 of `OneBobUnlisted` sends `/join general`: `bob` is added to
      `general`, the lookup of `bob`'s set fails, nothing is sent and the
      connection ends */
  lemma CrashedJoinStep(line: string, ts: string)
    requires line == "/join general"
    ensures WellFormed(OneBobUnlisted())
    ensures StepOutcome(OneBobUnlisted(), 1, "bob", line, ts,
                        WithJoin(OneBobUnlisted(), "bob", General), "bob", [], true)
  {
    JoinGeneralLine(line);
    JoinWithoutSetEnds(OneBobUnlisted(), 1, "bob", line, ts, General);
  }

  /** A `/join` that ends the connection breaks the two-way membership in
      the server itself: after two `/nick bob` and the removal of the second
      socket (`TwoBobsReached`, `SecondBobRemoved`), `bob` has no set;
      socket 1's `/join general` adds `bob` to `general` and ends the
      connection (`CrashedJoinStep`), and the removal that follows skips the
      channels because there is no set to list them, so `bob` stays in
      `general` */
  lemma CrashedJoinBreaksConsistency()
    ensures WellFormed(WithJoin(OneBobUnlisted(), "bob", General))
    ensures var gone := WithoutClient(WithJoin(OneBobUnlisted(), "bob", General), 1);
      && "bob" in gone.channels[General] && "bob" !in gone.clientChannels
      && !Consistent(gone)
  {
    var s3 := WithJoin(OneBobUnlisted(), "bob", General);
    assert {} + {"bob"} == {"bob"};
    assert s3.channels == map[General := {"bob"}];
    assert s3 == State([Client(1, "bob")], [General], map[General := {"bob"}], map[]);
    assert SockIndex(s3.clients, 1) == Some(0);
    var gone := WithoutClient(s3, 1);
    assert gone.channels[General] == {"bob"};
  }

  /** `/nick` with a nickname that has never had a channel set keeps the
      two-way membership too */
  lemma FreshNickKeepsConsistency(st: State, sock: Sock, nick: Nick, line: string, ts: string,
                                  st': State, nick': Nick, out: seq<Send>, quit: bool)
    requires WellFormed(st) && Consistent(st)
    requires StepOutcome(st, sock, nick, line, ts, st', nick', out, quit)
    requires Classify(line).Command? && Classify(line).word == "/nick"
    requires Classify(line).args !in st.clientChannels
    ensures Consistent(st')
  {
    if Classify(line).args != "" {
      NickFreshKeepsConsistency(st, sock, Classify(line).args);
    }
  }

  /** `/join` of a channel that does not exist replies with the error and
      changes nothing */
  lemma JoinMissingChannel(st: State, sock: Sock, nick: Nick, line: string, ts: string,
                           st': State, nick': Nick, out: seq<Send>, quit: bool, c: Name)
    requires WellFormed(st)
    requires Classify(line) == Command("/join", c)
    requires nick != "" && c != "" && c !in st.channels
    requires StepOutcome(st, sock, nick, line, ts, st', nick', out, quit)
    ensures st' == st && nick' == nick && !quit
    ensures out == [Send(sock, "ERROR: Channel " + c + " does not exist. Only the admin can create new channels.")]
  {
  }

  /** A `/join c` of an existing channel by a registered sender that does
      not end the connection puts the nickname in `c` and `c` in the
      nickname's set, replies `You have joined c` and notifies the other
      members only */
  lemma JoinedBothWays(st: State, sock: Sock, nick: Nick, line: string, ts: string,
                       st': State, nick': Nick, out: seq<Send>, quit: bool, c: Name)
    requires WellFormed(st)
    requires Classify(line) == Command("/join", c)
    requires StepOutcome(st, sock, nick, line, ts, st', nick', out, quit)
    requires nick != "" && c != "" && c in st.channels && !quit
    ensures c in st'.channels && nick in st'.channels[c]
    ensures nick in st'.clientChannels && c in st'.clientChannels[nick]
    ensures out[0] == Send(sock, "You have joined " + c)
    ensures sock !in Targets(out[1..])
  {
  }

  /** A member leaving `c` twice: the first time it is out of both sides and
      gets `You have left c`, the second time it gets the not-in-channel
      error and nothing changes */
  lemma LeaveTwice(st: State, sock: Sock, nick: Nick, line: string, ts: string, c: Name,
                   st1: State, nick1: Nick, out1: seq<Send>, quit1: bool,
                   st2: State, nick2: Nick, out2: seq<Send>, quit2: bool)
    requires WellFormed(st) && Consistent(st)
    requires Classify(line) == Command("/leave", c)
    requires nick != "" && c != "" && c in st.channels && nick in st.channels[c]
    requires StepOutcome(st, sock, nick, line, ts, st1, nick1, out1, quit1)
    requires WellFormed(st1) && StepOutcome(st1, sock, nick1, line, ts, st2, nick2, out2, quit2)
    ensures !quit1 && nick1 == nick && out1[0] == Send(sock, LeftReply(c))
    ensures nick !in st1.channels[c] && c !in st1.clientChannels[nick]
    ensures st2 == st1 && !quit2 && out2 == [Send(sock, "ERROR: You are not in channel " + c)]
  {
    LeaveEndsMembership(st, nick, c);
  }

  /** `/createchannel` by anyone but `admin` is refused whether or not the
      channel exists; by `admin` it fails for an existing channel and
      otherwise adds exactly one empty channel */
  lemma CreateChannelCases(st: State, sock: Sock, nick: Nick, line: string, ts: string,
                           st': State, nick': Nick, out: seq<Send>, quit: bool, c: Name)
    requires WellFormed(st)
    requires Classify(line) == Command("/createchannel", c)
    requires StepOutcome(st, sock, nick, line, ts, st', nick', out, quit)
    ensures !quit && nick' == nick && |out| == 1 && out[0].to == sock
    ensures nick == "" ==> st' == st && out[0].text == "ERROR: You must set a nickname first"
    ensures nick != "" && nick != Admin ==> st' == st && out[0].text == "ERROR: Only admin can create channels"
    ensures nick == Admin && c != "" && c in st.channels ==>
      st' == st && out[0].text == "ERROR: Channel " + c + " already exists"
    ensures nick == Admin && c != "" && c !in st.channels ==>
      && st'.channels == st.channels[c := {}]
      && st'.channelNames == st.channelNames + [c]
      && st'.clients == st.clients && st'.clientChannels == st.clientChannels
      && out[0].text == "Channel " + c + " created. Use /join " + c + " to join it."
  {
  }

  /** `/msg` to a registered nickname sends exactly one message to its first
      socket and one echo to the sender; to an unknown nickname only the
      error */
  lemma PrivateMessageDelivery(st: State, sock: Sock, nick: Nick, line: string, ts: string,
                               st': State, nick': Nick, out: seq<Send>, quit: bool,
                               target: Nick, text: string)
    requires WellFormed(st)
    requires ' ' !in target
    requires Classify(line) == Command("/msg", target + " " + text)
    requires nick != ""
    requires StepOutcome(st, sock, nick, line, ts, st', nick', out, quit)
    ensures st' == st && !quit
    ensures SockOf(st.clients, target).Some? ==>
      out == [Send(SockOf(st.clients, target).value, "[" + ts + "] PRIVATE from " + nick + ": " + text),
              Send(sock, "[" + ts + "] PRIVATE to " + target + ": " + text)]
    ensures SockOf(st.clients, target).None? ==> out == [Send(sock, "ERROR: User " + target + " not found")]
  {
    SplitOnceJoined(target, text);
  }

  /** A channel message from a registered sender goes to `#name` when the
      sender is a member of `name`, otherwise to a channel of its set; the
      sender's echo comes first and the broadcast never includes the
      sender's socket; with no channel at all only the error is sent */
  lemma ChatRouting(st: State, sock: Sock, nick: Nick, line: string, ts: string,
                    st': State, nick': Nick, out: seq<Send>, quit: bool)
    requires WellFormed(st)
    requires Classify(line).Plain? && nick != ""
    requires StepOutcome(st, sock, nick, line, ts, st', nick', out, quit)
    ensures st' == st && nick' == nick && !quit
    ensures |out| >= 1 && out[0].to == sock
    ensures Addressed(st, nick, line).Some? && Addressed(st, nick, line).value.0 != "" ==>
      var (c, body) := Addressed(st, nick, line).value;
      out[0].text == ChatLine(ts, c, nick, body) && Targets(out[1..]) == Recipients(st, c, Some(sock))
    ensures ((Addressed(st, nick, line).None? || Addressed(st, nick, line).value.0 == "")
             && Listed(st, nick) == {})
            ==> out == [Send(sock, "ERROR: You haven't joined any channels")]
    ensures ((Addressed(st, nick, line).None? || Addressed(st, nick, line).value.0 == "")
             && Listed(st, nick) != {})
            ==> var body := if Addressed(st, nick, line).Some? then Addressed(st, nick, line).value.1 else line;
                exists c | c in Listed(st, nick) ::
                  out[0].text == ChatLine(ts, c, nick, body) && Targets(out[1..]) == Recipients(st, c, Some(sock))
    ensures forall i | 1 <= i < |out| :: out[i].text == out[0].text
    ensures sock !in Targets(out[1..])
  {
    var addressed := Addressed(st, nick, line);
    var body := if addressed.Some? then addressed.value.1 else line;
    if addressed.Some? && addressed.value.0 != "" {
    } else if Listed(st, nick) == {} {
    } else {
      var c :| c in Listed(st, nick) && PostedTo(st, sock, nick, c, body, ts, out);
      assert Targets(out[1..]) == Recipients(st, c, Some(sock));
    }
  }
}
