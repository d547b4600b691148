/** The `IRCServer` object: its three dicts as fields, changed in place by
    `broadcast_to_channel`, `remove_client` and the body of the connection
    loop of `handle_client`. Sockets are plain handles and every send is an
    entry of the returned outbox. */
module Server {
  import opened Text
  import opened Chat
  import opened Protocol

  class IRCServer {
    /** socket -> nickname, in insertion order */
    var clients: seq<Client>
    /** the keys of the channel table, in insertion order */
    var channelNames: seq<Name>
    /** channel name -> set of nicknames */
    var channels: map<Name, set<Nick>>
    /** nickname -> set of channel names */
    var clientChannels: map<Nick, set<Name>>

    /** The state the fields hold */
    function Model(): State
      reads this
    {
      State(clients, channelNames, channels, clientChannels)
    }

    ghost predicate Valid()
      reads this
    {
      WellFormed(Model())
    }

    /** A server with the one channel `general`, empty, and no clients */
    constructor ()
      ensures Valid() && Model() == Init()
    {
      clients := [];
      channelNames := [General];
      channels := map[General := {}];
      clientChannels := map[];
    }

    /** The first socket whose nickname is `nick` */
    method FindSocket(nick: Nick) returns (r: Option<Sock>)
      ensures r == SockOf(clients, nick)
    {
      var i := 0;
      while i < |clients|
        invariant 0 <= i <= |clients|
        invariant forall j | 0 <= j < i :: clients[j].nick != nick
      {
        if clients[i].nick == nick {
          return Some(clients[i].sock);
        }
        i := i + 1;
      }
      return None;
    }

    /** `broadcast_to_channel`: `message` once to the socket of every member
        of `channel` that has one, except `exclude`; nothing for an unknown
        channel. Members are visited in an unspecified order. */
    method BroadcastToChannel(channel: Name, message: string, exclude: Option<Sock>)
      returns (out: seq<Send>)
      requires DistinctSocks(clients)
      ensures IsBroadcast(out, Recipients(Model(), channel, exclude), message)
      ensures channel !in channels ==> out == []
    {
      out := [];
      if channel !in channels {
        return;
      }
      var todo := channels[channel];
      ghost var done: set<Nick> := {};
      while todo != {}
        invariant todo + done == channels[channel] && todo !! done
        invariant IsBroadcast(out, Audience(clients, done, exclude), message)
        decreases todo
      {
        var nick :| nick in todo;
        var s := FindSocket(nick);
        AudienceAdd(clients, done, nick, exclude);
        if s.Some? && s != exclude {
          AudienceFresh(clients, done, nick, exclude);
          BroadcastSnoc(out, Audience(clients, done, exclude), message, s.value);
          out := out + [Send(s.value, message)];
        }
        todo := todo - {nick};
        done := done + {nick};
      }
    }

    /** `remove_client`: for a registered socket, take its nickname out of
        every channel of its set, announcing the departure in each, then
        drop the nickname's set and the socket's entry */
    method RemoveClient(sock: Sock) returns (out: seq<Send>)
      requires Valid()
      modifies this
      ensures Valid()
      ensures Model() == WithoutClient(old(Model()), sock)
      ensures Departures(old(Model()), sock, out)
    {
      out := [];
      var k := SockIndex(clients, sock);
      if k.None? {
        return;
      }
      ghost var st0 := Model();
      var nickname := clients[k.value].nick;
      ghost var gone := Listed(st0, nickname);
      ghost var left := map c | c in st0.channels ::
        if c in gone then st0.channels[c] - {nickname} else st0.channels[c];
      if nickname in clientChannels {
        out := LeaveChannels(nickname, sock);
      } else {
        assert channels == left;
        assert clientChannels == clientChannels - {nickname};
        assert Notices(st0, nickname, sock, gone) == {};
      }
      if nickname in clientChannels {
        clientChannels := clientChannels - {nickname};
      }
      clients := Unbind(clients, sock);
      WithoutRegistered(st0, sock, k.value);
      assert Model() == WithoutClient(st0, sock);
      RemoveWellFormed(st0, sock);
    }

    /** The loop of `remove_client` over a copy of the nickname's channel
        set: each existing channel loses the nickname and its remaining
        members hear of the departure */
    method LeaveChannels(nickname: Nick, sock: Sock) returns (out: seq<Send>)
      requires DistinctSocks(clients) && nickname in clientChannels
      modifies this
      ensures clients == old(clients) && channelNames == old(channelNames)
      ensures clientChannels == old(clientChannels)
      ensures channels == map c | c in old(channels) ::
        if c in clientChannels[nickname] then old(channels)[c] - {nickname} else old(channels)[c]
      ensures NoRepeats(out) && Sent(out) == Notices(old(Model()), nickname, sock, clientChannels[nickname])
    {
      ghost var st0 := Model();
      out := [];
      var todo := clientChannels[nickname];
      ghost var done: set<Name> := {};
      while todo != {}
        invariant clients == st0.clients && channelNames == st0.channelNames
        invariant clientChannels == st0.clientChannels
        invariant channels.Keys == st0.channels.Keys
        invariant todo + done == st0.clientChannels[nickname] && todo !! done
        invariant forall c | c in channels ::
          channels[c] == if c in done then st0.channels[c] - {nickname} else st0.channels[c]
        invariant NoRepeats(out) && Sent(out) == Notices(st0, nickname, sock, done)
        decreases todo
      {
        var channel :| channel in todo;
        if channel in channels {
          channels := channels[channel := channels[channel] - {nickname}];
          var b := BroadcastToChannel(channel, LeftNotice(nickname, channel), Some(sock));
          NoticesStep(st0, nickname, sock, done, channel, out, b);
          out := out + b;
        } else {
          NoticesSkip(st0, nickname, sock, done, channel);
        }
        todo := todo - {channel};
        done := done + {channel};
      }
    }

    /** `/nick args` */
    method Nick(sock: Sock, nickname: Nick, args: string) returns (nick': Nick, out: seq<Send>)
      requires Valid()
      modifies this
      ensures Valid()
      ensures NickOutcome(old(Model()), sock, nickname, args, Model(), nick', out)
    {
      if args == "" {
        return nickname, [Send(sock, NickEmpty)];
      }
      ghost var st' := WithNick(Model(), sock, args);
      NickWellFormed(Model(), sock, args);
      nick' := args;
      clients := Bind(clients, sock, args);
      // the nickname's set is reset, then `general` is its one channel
      channels := channels[General := channels[General] + {args}];
      clientChannels := clientChannels[args := {General}];
      assert Model() == st';
      var b := BroadcastToChannel(General, JoinedGeneralNotice(args), Some(sock));
      out := [Send(sock, Welcome(args))] + b;
      assert out[1..] == b;
    }

    /** `/join args`; `aborted` when the nickname has no channel set and the
        lookup fails after the channel was already updated */
    method Join(sock: Sock, nickname: Nick, args: string) returns (out: seq<Send>, aborted: bool)
      requires Valid()
      modifies this
      ensures Valid()
      ensures JoinOutcome(old(Model()), sock, nickname, args, Model(), out, aborted)
    {
      out, aborted := [], false;
      if nickname == "" {
        out := [Send(sock, NeedNickHint)];
        return;
      }
      if args == "" {
        out := [Send(sock, JoinWhich)];
        return;
      }
      if args !in channels {
        out := [Send(sock, NoChannelToJoin(args))];
        return;
      }
      ghost var st' := WithJoin(Model(), nickname, args);
      JoinWellFormed(Model(), nickname, args);
      channels := channels[args := channels[args] + {nickname}];
      if nickname !in clientChannels {
        aborted := true;
        assert Model() == st';
        return;
      }
      clientChannels := clientChannels[nickname := clientChannels[nickname] + {args}];
      assert Model() == st';
      var b := BroadcastToChannel(args, JoinNotice(nickname, args), Some(sock));
      out := [Send(sock, JoinedReply(args))] + b;
      assert out[1..] == b;
    }

    /** `/leave args` and `/part args` */
    method Leave(sock: Sock, nickname: Nick, args: string) returns (out: seq<Send>, aborted: bool)
      requires Valid()
      modifies this
      ensures Valid()
      ensures LeaveOutcome(old(Model()), sock, nickname, args, Model(), out, aborted)
    {
      out, aborted := [], false;
      if nickname == "" {
        out := [Send(sock, NeedNick)];
        return;
      }
      if args == "" {
        out := [Send(sock, LeaveWhich)];
        return;
      }
      if args in channels && nickname in channels[args] {
        out, aborted := LeaveMember(sock, nickname, args);
      } else {
        out := [Send(sock, NotInChannel(args))];
      }
    }

    /** `/leave` by a member of the channel; `aborted` when the nickname's
        set does not list the channel and the removal fails after the
        channel was already updated */
    method LeaveMember(sock: Sock, nickname: Nick, args: Name) returns (out: seq<Send>, aborted: bool)
      requires Valid() && args in channels && nickname in channels[args]
      modifies this
      ensures Valid()
      ensures Model() == WithLeave(old(Model()), nickname, args)
      ensures aborted == !(nickname in old(clientChannels) && args in old(clientChannels)[nickname])
      ensures aborted ==> out == []
      ensures !aborted ==> ReplyThenBroadcast(out, Send(sock, LeftReply(args)),
                                              Recipients(Model(), args, None), LeftNotice(nickname, args))
    {
      ghost var st' := WithLeave(Model(), nickname, args);
      LeaveWellFormed(Model(), nickname, args);
      out, aborted := [], false;
      channels := channels[args := channels[args] - {nickname}];
      if !(nickname in clientChannels && args in clientChannels[nickname]) {
        aborted := true;
        assert Model() == st';
        return;
      }
      clientChannels := clientChannels[nickname := clientChannels[nickname] - {args}];
      assert Model() == st';
      var b := BroadcastToChannel(args, LeftNotice(nickname, args), None);
      out := [Send(sock, LeftReply(args))] + b;
      assert out[1..] == b;
    }

    /** `/users args` */
    method Users(sock: Sock, args: string) returns (out: seq<Send>)
      requires Valid()
      ensures UsersOutcome(Model(), sock, args, out)
    {
      if args == "" {
        return [Send(sock, UsersWhich)];
      }
      if args in channels {
        var names := Sorted(channels[args]);
        out := [Send(sock, UsersReply(args, names))];
      } else {
        out := [Send(sock, NoSuchChannel(args))];
      }
    }

    /** `/createchannel args` */
    method CreateChannel(sock: Sock, nickname: Nick, args: string) returns (out: seq<Send>)
      requires Valid()
      modifies this
      ensures Valid()
      ensures CreateOutcome(old(Model()), sock, nickname, args, Model(), out)
    {
      if nickname == "" {
        return [Send(sock, NeedNick)];
      }
      if nickname != Admin {
        return [Send(sock, AdminOnly)];
      }
      if args == "" {
        return [Send(sock, CreateWhich)];
      }
      if args in channels {
        out := [Send(sock, AlreadyExists(args))];
      } else {
        CreateWellFormed(Model(), args);
        channelNames := channelNames + [args];
        channels := channels[args := {}];
        out := [Send(sock, Created(args))];
      }
    }

    /** `/msg args`, with the clock's `HH:MM:SS` reading passed in */
    method PrivateMessage(sock: Sock, nickname: Nick, args: string, timestamp: string)
      returns (out: seq<Send>)
      requires Valid()
      ensures MsgOutcome(Model(), sock, nickname, args, timestamp, out)
    {
      if nickname == "" {
        return [Send(sock, NeedNick)];
      }
      var parts := SplitOnce(args);
      if |parts| < 2 {
        return [Send(sock, MsgUsage)];
      }
      var target, text := parts[0], parts[1];
      var t := FindSocket(target);
      if t.Some? {
        out := [Send(t.value, PrivateFrom(timestamp, nickname, text)),
                Send(sock, PrivateTo(timestamp, target, text))];
      } else {
        out := [Send(sock, UserNotFound(target))];
      }
    }

    /** A line that is not a command: post it to the `#name` channel it
        names, or else to some channel of the sender's set */
    method ChannelMessage(sock: Sock, nickname: Nick, line: string, timestamp: string)
      returns (out: seq<Send>)
      requires Valid()
      ensures ChatOutcome(Model(), sock, nickname, line, timestamp, out)
    {
      if nickname == "" {
        return [Send(sock, NeedNickHint)];
      }
      var target: Name := "";
      var body := line;
      if line != "" && line[0] == '#' && ' ' in line {
        var parts := SplitOnce(line);
        var name := parts[0][1..];
        if name in channels && nickname in channels[name] {
          target := name;
          body := parts[1];
        }
      }
      if target == "" {
        var joined := if nickname in clientChannels then clientChannels[nickname] else {};
        if joined == {} {
          return [Send(sock, NoChannels)];
        }
        target :| target in joined;
      }
      var posted := ChatLine(timestamp, target, nickname, body);
      var b := BroadcastToChannel(target, posted, Some(sock));
      out := [Send(sock, posted)] + b;
      assert out[1..] == b;
      assert PostedTo(Model(), sock, nickname, target, body, timestamp, out);
    }

    /** One pass of the loop of `handle_client`: the connection's local
        nickname (`""` while unset), the line read, and the clock reading in;
        the new nickname, the outbox and whether the loop ends out */
    method HandleLine(sock: Sock, nickname: Nick, line: string, timestamp: string)
      returns (nick': Nick, out: seq<Send>, quit: bool)
      requires Valid()
      modifies this
      ensures Valid()
      ensures StepOutcome(old(Model()), sock, nickname, line, timestamp, Model(), nick', out, quit)
      ensures old(channelNames) <= channelNames
    {
      nick', out, quit := nickname, [], false;
      match Classify(line)
      case Blank =>
        quit := true;
      case Plain(_) =>
        out := ChannelMessage(sock, nickname, line, timestamp);
      case Command(w, a) =>
        if w == "/nick" {
          nick', out := Nick(sock, nickname, a);
        } else if w == "/join" {
          out, quit := Join(sock, nickname, a);
        } else if w == "/leave" || w == "/part" {
          out, quit := Leave(sock, nickname, a);
        } else if w == "/list" {
          out := [Send(sock, ListReply(Model()))];
        } else if w == "/users" {
          out := Users(sock, a);
        } else if w == "/createchannel" {
          out := CreateChannel(sock, nickname, a);
        } else if w == "/msg" {
          out := PrivateMessage(sock, nickname, a, timestamp);
        } else if w == "/help" {
          out := [Send(sock, HelpText(nickname))];
        } else if w == "/quit" {
          out, quit := [Send(sock, Goodbye)], true;
        } else {
          out := [Send(sock, UnknownCommand(w))];
        }
      StepKeepsChannels(old(Model()), sock, nickname, line, timestamp, Model(), nick', out, quit);
    }

    /** `handle_client` for one connection: greet, handle the lines read one
        at a time until one ends the loop (running out of lines is the peer
        closing), then remove the client. `stamps[i]` is the clock reading
        while line `i` is handled. */
    method Serve(sock: Sock, lines: seq<string>, stamps: seq<string>) returns (out: seq<Send>)
      requires Valid() && |stamps| == |lines|
      modifies this
      ensures Valid()
      ensures |out| >= 1 && out[0] == Send(sock, Greeting)
      ensures SockIndex(clients, sock).None?
      ensures old(channelNames) <= channelNames
    {
      out := [Send(sock, Greeting)];
      var nickname: Nick := "";
      var i := 0;
      while i < |lines|
        invariant Valid() && 0 <= i <= |lines|
        invariant old(channelNames) <= channelNames
        invariant |out| >= 1 && out[0] == Send(sock, Greeting)
      {
        var nick', sent, quit := HandleLine(sock, nickname, lines[i], stamps[i]);
        out, nickname := out + sent, nick';
        if quit {
          break;
        }
        i := i + 1;
      }
      ghost var before := Model();
      var gone := RemoveClient(sock);
      out := out + gone;
      if SockIndex(before.clients, sock).Some? {
        RemoveCleansUp(before, sock);
      } else {
        RemoveIdempotent(before, sock);
      }
    }
  }
}
