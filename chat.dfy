/** The server's shared chat state as a value: the connected sockets and
    their nicknames (in insertion order, as a Python dict keeps them), the
    channel table (names in insertion order, each with its set of member
    nicknames) and, per nickname, the set of channels it has joined. The
    transitions here are the state changes of `/nick`, `/join`, `/leave`,
    `/createchannel` and `remove_client`; the class in module Server
    performs them in place. */
module Chat {
  import opened Text

  /** An opaque handle for one accepted connection */
  type Sock = nat
  type Nick = string
  type Name = string

  /** The channel every server starts with */
  const General: Name := "general"
  /** The one nickname allowed to create channels */
  const Admin: Nick := "admin"

  datatype Option<T> = None | Some(value: T)

  /** One entry of the socket-to-nickname dict */
  datatype Client = Client(sock: Sock, nick: Nick)

  /** One `sock.send(text)` */
  datatype Send = Send(to: Sock, text: string)

  datatype State = State(
    clients: seq<Client>,
    channelNames: seq<Name>,
    channels: map<Name, set<Nick>>,
    clientChannels: map<Nick, set<Name>>)

  predicate DistinctSocks(c: seq<Client>)
  {
    forall i, j | 0 <= i < j < |c| :: c[i].sock != c[j].sock
  }

  predicate DistinctNames(s: seq<Name>)
  {
    forall i, j | 0 <= i < j < |s| :: s[i] != s[j]
  }

  /** The shape every reachable state has: dict keys are unique, the
      ordered channel names are the channel table's keys, and `general`
      exists (it is never deleted) */
  ghost predicate WellFormed(st: State)
  {
    && DistinctSocks(st.clients)
    && DistinctNames(st.channelNames)
    && (forall c :: c in st.channelNames <==> c in st.channels)
    && General in st.channels
  }

  /** The state built by the constructor */
  function Init(): State
  {
    State([], [General], map[General := {}], map[])
  }

  /** Two-way membership: a nickname is in channel `c` exactly when `c` is
      among the nickname's joined channels */
  ghost predicate Consistent(st: State)
  {
    && (forall c, n | c in st.channels && n in st.channels[c] ::
          n in st.clientChannels && c in st.clientChannels[n])
    && (forall n, c | n in st.clientChannels && c in st.clientChannels[n] ::
          c in st.channels && n in st.channels[c])
  }

  lemma InitWellFormed()
    ensures WellFormed(Init()) && Consistent(Init())
  {
  }

  // ---------------------------------------------------------------------
  // Looking up the client dict

  /** Position of socket `s` in the client dict, if it is registered */
  function SockIndex(c: seq<Client>, s: Sock): (r: Option<nat>)
    ensures r.Some? ==> r.value < |c| && c[r.value].sock == s
    ensures r.None? ==> forall i | 0 <= i < |c| :: c[i].sock != s
  {
    if c == [] then None
    else if c[0].sock == s then Some(0)
    else match SockIndex(c[1..], s)
      case None => None
      case Some(k) => Some(k + 1)
  }

  /** Position of the first client whose nickname is `n`: the scan that
      stops at the first match */
  function FirstWithNick(c: seq<Client>, n: Nick): (r: Option<nat>)
    ensures r.Some? ==> r.value < |c| && c[r.value].nick == n
    ensures r.Some? ==> forall j | 0 <= j < r.value :: c[j].nick != n
    ensures r.None? ==> forall j | 0 <= j < |c| :: c[j].nick != n
  {
    if c == [] then None
    else if c[0].nick == n then Some(0)
    else match FirstWithNick(c[1..], n)
      case None => None
      case Some(k) => Some(k + 1)
  }

  /** The socket a message for nickname `n` goes to */
  function SockOf(c: seq<Client>, n: Nick): Option<Sock>
  {
    match FirstWithNick(c, n)
    case None => None
    case Some(k) => Some(c[k].sock)
  }

  /** Distinct nicknames never share a socket */
  lemma SockOfInjective(c: seq<Client>, m: Nick, n: Nick)
    requires DistinctSocks(c)
    requires SockOf(c, m).Some? && SockOf(c, m) == SockOf(c, n)
    ensures m == n
  {
  }

  /** The sockets a broadcast to `members` reaches: every member that has
      a socket, except the excluded one */
  function Audience(c: seq<Client>, members: set<Nick>, exclude: Option<Sock>): set<Sock>
  {
    set n | n in members && SockOf(c, n).Some? && SockOf(c, n) != exclude :: SockOf(c, n).value
  }

  /** Adding one more member to the audience adds at most its socket */
  lemma AudienceAdd(c: seq<Client>, members: set<Nick>, n: Nick, exclude: Option<Sock>)
    ensures Audience(c, members + {n}, exclude) ==
      Audience(c, members, exclude) +
      (if SockOf(c, n).Some? && SockOf(c, n) != exclude then {SockOf(c, n).value} else {})
  {
    var lhs := Audience(c, members + {n}, exclude);
    var rhs := Audience(c, members, exclude) +
      (if SockOf(c, n).Some? && SockOf(c, n) != exclude then {SockOf(c, n).value} else {});
    forall t | t in lhs ensures t in rhs {
      var m :| m in members + {n} && SockOf(c, m).Some? && SockOf(c, m) != exclude && SockOf(c, m).value == t;
      if m != n {
        assert t in Audience(c, members, exclude);
      }
    }
  }

  /** The receivers of a broadcast to channel `ch`: nobody if the channel
      does not exist */
  function Recipients(st: State, ch: Name, exclude: Option<Sock>): set<Sock>
  {
    if ch in st.channels then Audience(st.clients, st.channels[ch], exclude) else {}
  }

  function Targets(out: seq<Send>): set<Sock>
  {
    set i | 0 <= i < |out| :: out[i].to
  }

  /** `out` sends `text` exactly once to each socket of `to`, and nothing else */
  ghost predicate IsBroadcast(out: seq<Send>, to: set<Sock>, text: string)
  {
    && Targets(out) == to
    && (forall i | 0 <= i < |out| :: out[i].text == text)
    && (forall i, j | 0 <= i < j < |out| :: out[i].to != out[j].to)
  }

  /** A member not yet counted brings a socket the audience does not have */
  lemma AudienceFresh(c: seq<Client>, members: set<Nick>, n: Nick, exclude: Option<Sock>)
    requires DistinctSocks(c)
    requires n !in members && SockOf(c, n).Some?
    ensures SockOf(c, n).value !in Audience(c, members, exclude)
  {
    if SockOf(c, n).value in Audience(c, members, exclude) {
      var m :| m in members && SockOf(c, m).Some? && SockOf(c, m) != exclude
        && SockOf(c, m).value == SockOf(c, n).value;
      SockOfInjective(c, m, n);
    }
  }

  /** Sending to one more, new socket extends the broadcast */
  lemma BroadcastSnoc(out: seq<Send>, to: set<Sock>, text: string, t: Sock)
    requires IsBroadcast(out, to, text) && t !in to
    ensures IsBroadcast(out + [Send(t, text)], to + {t}, text)
  {
    var out' := out + [Send(t, text)];
    assert Targets(out') == Targets(out) + {t} by {
      forall u | u in Targets(out') ensures u in Targets(out) + {t} {
        var i :| 0 <= i < |out'| && out'[i].to == u;
        if i < |out| { assert out[i].to == u; }
      }
      forall u | u in Targets(out) ensures u in Targets(out') {
        var i :| 0 <= i < |out| && out[i].to == u;
        assert out'[i].to == u;
      }
      assert out'[|out|].to == t;
    }
    forall i | 0 <= i < |out| ensures out'[i].to != t {
      assert out[i].to in Targets(out);
    }
  }

  // ---------------------------------------------------------------------
  // Updating the client dict

  /** `clients[s] = n`: a registered socket keeps its position, a new one
      is appended */
  function Bind(c: seq<Client>, s: Sock, n: Nick): (r: seq<Client>)
    requires DistinctSocks(c)
    ensures DistinctSocks(r)
    ensures |r| == if SockIndex(c, s).Some? then |c| else |c| + 1
    ensures forall i | 0 <= i < |c| :: r[i] == if c[i].sock == s then Client(s, n) else c[i]
    ensures SockIndex(r, s).Some? && r[SockIndex(r, s).value] == Client(s, n)
  {
    match SockIndex(c, s)
    case Some(k) =>
      var r := c[k := Client(s, n)];
      assert r[k].sock == s;
      r
    case None =>
      var r := c + [Client(s, n)];
      assert r[|c|].sock == s;
      r
  }

  /** `del clients[s]`: every other entry stays, in its order */
  function Unbind(c: seq<Client>, s: Sock): (r: seq<Client>)
    requires DistinctSocks(c)
    ensures DistinctSocks(r)
    ensures SockIndex(r, s).None?
    ensures forall x :: x in r <==> x in c && x.sock != s
    ensures |r| == if SockIndex(c, s).Some? then |c| - 1 else |c|
    ensures SockIndex(c, s).None? ==> r == c
    ensures SockIndex(c, s).Some? ==>
      r == c[..SockIndex(c, s).value] + c[SockIndex(c, s).value + 1..]
  {
    match SockIndex(c, s)
    case None => c
    case Some(k) =>
      var r := c[..k] + c[k + 1..];
      UnbindAt(c, k, r);
      r
  }

  lemma UnbindAt(c: seq<Client>, k: nat, r: seq<Client>)
    requires DistinctSocks(c) && k < |c|
    requires r == c[..k] + c[k + 1..]
    ensures DistinctSocks(r)
    ensures forall i | 0 <= i < |c| && i != k :: c[i] in r
    ensures forall x | x in r :: x in c && x.sock != c[k].sock
  {
    assert forall i | 0 <= i < |r| :: r[i] == if i < k then c[i] else c[i + 1];
    forall i | 0 <= i < |c| && i != k ensures c[i] in r {
      assert r[if i < k then i else i - 1] == c[i];
    }
  }

  // ---------------------------------------------------------------------
  // Transitions

  /** `/nick n` from socket `s`: bind the socket, reset the nickname's
      channel set to `{general}` and add the nickname to `general`. Other
      channels keep whatever members they had. */
  function WithNick(st: State, s: Sock, n: Nick): State
    requires WellFormed(st)
  {
    st.(clients := Bind(st.clients, s, n),
        channels := st.channels[General := st.channels[General] + {n}],
        clientChannels := st.clientChannels[n := {General}])
  }

  /** `/join c` by `n`: add to the channel, then to the nickname's set,
      which is skipped (the lookup fails) when `n` has no set */
  function WithJoin(st: State, n: Nick, c: Name): State
    requires c in st.channels
  {
    st.(channels := st.channels[c := st.channels[c] + {n}],
        clientChannels :=
          if n in st.clientChannels
          then st.clientChannels[n := st.clientChannels[n] + {c}]
          else st.clientChannels)
  }

  /** `/leave c` by a member `n`: remove from the channel, then from the
      nickname's set, which is skipped (the removal fails) when the set
      does not list `c` */
  function WithLeave(st: State, n: Nick, c: Name): State
    requires c in st.channels
  {
    st.(channels := st.channels[c := st.channels[c] - {n}],
        clientChannels :=
          if n in st.clientChannels && c in st.clientChannels[n]
          then st.clientChannels[n := st.clientChannels[n] - {c}]
          else st.clientChannels)
  }

  /** `/createchannel c`: a new, empty channel listed last */
  function WithChannel(st: State, c: Name): State
    requires c !in st.channels
  {
    st.(channelNames := st.channelNames + [c], channels := st.channels[c := {}])
  }

  /** The channels listed for nickname `n` */
  function Listed(st: State, n: Nick): set<Name>
  {
    if n in st.clientChannels then st.clientChannels[n] else {}
  }

  /** `remove_client(s)`: for a registered socket, take its nickname out of
      every channel its set lists, drop the set and the socket; for any
      other socket, nothing */
  function WithoutClient(st: State, s: Sock): State
    requires WellFormed(st)
  {
    match SockIndex(st.clients, s)
    case None => st
    case Some(k) =>
      var n := st.clients[k].nick;
      var gone := Listed(st, n);
      st.(clients := Unbind(st.clients, s),
          channels := map c | c in st.channels ::
            if c in gone then st.channels[c] - {n} else st.channels[c],
          clientChannels := st.clientChannels - {n})
  }

  /** The removal of a registered socket, spelled out */
  lemma WithoutRegistered(st: State, s: Sock, k: nat)
    requires WellFormed(st) && SockIndex(st.clients, s) == Some(k)
    ensures var n := st.clients[k].nick;
      WithoutClient(st, s) ==
      State(Unbind(st.clients, s), st.channelNames,
            map c | c in st.channels ::
              if c in Listed(st, n) then st.channels[c] - {n} else st.channels[c],
            st.clientChannels - {n})
  {
  }

  // ---------------------------------------------------------------------
  // What the transitions keep

  // Every transition keeps the state well formed

  lemma NickWellFormed(st: State, s: Sock, n: Nick)
    requires WellFormed(st)
    ensures WellFormed(WithNick(st, s, n))
  {
  }

  lemma JoinWellFormed(st: State, n: Nick, c: Name)
    requires WellFormed(st) && c in st.channels
    ensures WellFormed(WithJoin(st, n, c))
  {
  }

  lemma LeaveWellFormed(st: State, n: Nick, c: Name)
    requires WellFormed(st) && c in st.channels
    ensures WellFormed(WithLeave(st, n, c))
  {
  }

  lemma CreateWellFormed(st: State, c: Name)
    requires WellFormed(st) && c !in st.channels
    ensures WellFormed(WithChannel(st, c))
  {
    var names := st.channelNames + [c];
    forall i, j | 0 <= i < j < |names| ensures names[i] != names[j] {
      if j == |st.channelNames| {
        assert names[i] in st.channelNames;
      }
    }
  }

  lemma RemoveWellFormed(st: State, s: Sock)
    requires WellFormed(st)
    ensures WellFormed(WithoutClient(st, s))
    ensures WithoutClient(st, s).channels.Keys == st.channels.Keys
  {
  }

  /** A successful join puts the nickname in the channel and the channel in
      the nickname's set, both ways */
  lemma JoinMakesMember(st: State, n: Nick, c: Name)
    requires c in st.channels && n in st.clientChannels
    ensures n in WithJoin(st, n, c).channels[c]
    ensures c in WithJoin(st, n, c).clientChannels[n]
    ensures WithJoin(st, n, c).channels.Keys == st.channels.Keys
  {
  }

  lemma JoinKeepsConsistency(st: State, n: Nick, c: Name)
    requires Consistent(st)
    requires c in st.channels && n in st.clientChannels
    ensures Consistent(WithJoin(st, n, c))
  {
  }

  /** Leaving takes the nickname out of the channel and, when the two sides
      agreed, the channel out of the nickname's set */
  lemma LeaveEndsMembership(st: State, n: Nick, c: Name)
    requires Consistent(st)
    requires c in st.channels && n in st.channels[c]
    ensures n !in WithLeave(st, n, c).channels[c]
    ensures c !in WithLeave(st, n, c).clientChannels[n]
    ensures Consistent(WithLeave(st, n, c))
    ensures WithLeave(st, n, c).channels.Keys == st.channels.Keys
  {
  }

  /** A new channel is empty, every other one is as it was, and the two-way
      membership still holds */
  lemma CreateAddsEmptyChannel(st: State, c: Name)
    requires c !in st.channels
    ensures WithChannel(st, c).channels.Keys == st.channels.Keys + {c}
    ensures WithChannel(st, c).channels[c] == {}
    ensures forall d | d in st.channels :: WithChannel(st, c).channels[d] == st.channels[d]
    ensures WithChannel(st, c).clientChannels == st.clientChannels
    ensures Consistent(st) ==> Consistent(WithChannel(st, c))
  {
  }

  /** `/nick` with a nickname that has no channel set yet keeps the two-way
      membership */
  lemma NickFreshKeepsConsistency(st: State, s: Sock, n: Nick)
    requires WellFormed(st) && Consistent(st)
    requires n !in st.clientChannels
    ensures Consistent(WithNick(st, s, n))
  {
    var st' := WithNick(st, s, n);
    forall c, m | c in st'.channels && m in st'.channels[c]
      ensures m in st'.clientChannels && c in st'.clientChannels[m]
    {
    }
  }

  /** A state where `bob` is in `general` and `ops`, both ways */
  function BobInOps(): State
  {
    State([Client(1, "bob")], [General, "ops"],
          map[General := {"bob"}, "ops" := {"bob"}],
          map["bob" := {General, "ops"}])
  }

  /** Repeating `/nick bob` resets bob's set to `{general}` but leaves bob
      in `ops`: the two-way membership no longer holds */
  lemma RepeatedNickBreaksConsistency()
    ensures WellFormed(BobInOps()) && Consistent(BobInOps())
    ensures !Consistent(WithNick(BobInOps(), 1, "bob"))
  {
    var st' := WithNick(BobInOps(), 1, "bob");
    assert "bob" in st'.channels["ops"];
    assert "ops" !in st'.clientChannels["bob"];
  }

  /** Removing a registered socket: the socket and the nickname's set are
      gone, the nickname is out of every channel that set listed, the
      channel names stay */
  lemma RemoveCleansUp(st: State, s: Sock)
    requires WellFormed(st)
    requires SockIndex(st.clients, s).Some?
    ensures SockIndex(WithoutClient(st, s).clients, s).None?
    ensures var n := st.clients[SockIndex(st.clients, s).value].nick;
      && n !in WithoutClient(st, s).clientChannels
      && (forall c | c in Listed(st, n) && c in st.channels :: n !in WithoutClient(st, s).channels[c])
    ensures WithoutClient(st, s).channelNames == st.channelNames
  {
  }

  /** Under two-way membership, the removed nickname is left in no channel */
  lemma RemoveKeepsConsistency(st: State, s: Sock)
    requires WellFormed(st) && Consistent(st)
    ensures Consistent(WithoutClient(st, s))
    ensures SockIndex(st.clients, s).Some? ==>
      forall c | c in WithoutClient(st, s).channels ::
        st.clients[SockIndex(st.clients, s).value].nick !in WithoutClient(st, s).channels[c]
  {
    match SockIndex(st.clients, s)
    case None =>
    case Some(k) =>
      WithoutRegistered(st, s, k);
      DropKeepsConsistency(st, st.clients[k].nick, WithoutClient(st, s));
  }

  /** Taking nickname `n` out of the channels its set lists and dropping
      the set keeps the two-way membership, and leaves `n` in no channel */
  lemma DropKeepsConsistency(st: State, n: Nick, st': State)
    requires Consistent(st)
    requires st'.channels == map c | c in st.channels ::
      if c in Listed(st, n) then st.channels[c] - {n} else st.channels[c]
    requires st'.clientChannels == st.clientChannels - {n}
    ensures Consistent(st')
    ensures forall c | c in st'.channels :: n !in st'.channels[c]
  {
    forall c, m | c in st'.channels && m in st'.channels[c]
      ensures m != n && m in st'.clientChannels && c in st'.clientChannels[m]
    {
      assert m in st.channels[c];
    }
    forall m, c | m in st'.clientChannels && c in st'.clientChannels[m]
      ensures c in st'.channels && m in st'.channels[c]
    {
      assert m != n && m in st.clientChannels;
    }
  }

  /** Removing an unknown socket changes nothing, so removing twice is
      removing once */
  lemma RemoveIdempotent(st: State, s: Sock)
    requires WellFormed(st)
    ensures SockIndex(st.clients, s).None? ==> WithoutClient(st, s) == st
    ensures WellFormed(WithoutClient(st, s))
    ensures WithoutClient(WithoutClient(st, s), s) == WithoutClient(st, s)
  {
    RemoveWellFormed(st, s);
  }
}
