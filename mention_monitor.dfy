/** The mention monitor: per guild, the channels that receive an alert whenever a message
    of that guild mentions someone. */
module MentionMonitor {
  import opened Common
  import Helper

  /** `guilds.get(g, [])`: the channels `setdefault(g, [])` would return. */
  function ChannelsOf(guilds: map<int, seq<TextChannel>>, g: int): seq<TextChannel>
  {
    if g in guilds then guilds[g] else []
  }

  /** Every list holds each channel once, and only channels of its own guild. */
  predicate WellFormed(guilds: map<int, seq<TextChannel>>)
  {
    forall g :: g in guilds ==> NoDuplicates(guilds[g]) && forall c :: c in guilds[g] ==> c.guild == g
  }

  /** The parts of a message the listener reads: its guild (None in a direct message), the
      author's mention, the mentions it makes, and its jump URL. */
  datatype Message = Message(guild: Option<int>, author: string, mentions: seq<string>, jumpUrl: string)

  /** One alert sent: the channel, the embed's description, the button's URL. */
  datatype Alert = Alert(channel: TextChannel, description: string, jumpUrl: string)

  function Description(m: Message): string
  {
    m.author + " sent a message that mentioned " + Helper.Join(m.mentions, ", ")
  }

  /** The `action` choice of the `mentions` command. */
  datatype Action = Stop | Start

  /** The four messages the `mentions` command can send. */
  datatype ReplyKind = Started | AlreadyRunning | Stopped | NotRunning

  function ReplyText(k: ReplyKind): string
  {
    match k
    case Started => "Will use this channel to monitor mentions"
    case AlreadyRunning => "Failed to start. Mention monitor is probably already running on this channel"
    case Stopped => "Removed mention monitor from this channel"
    case NotRunning => "Failed to stop. There's probably no mention monitor running on this channel"
  }

  /** A reply to the `mentions` command. */
  datatype Reply = Reply(kind: ReplyKind, ephemeral: bool)

  /** The channels a message alerts: its guild's list, when the guild is a key and the
      message mentions someone; otherwise none. */
  function Targets(guilds: map<int, seq<TextChannel>>, m: Message): (r: seq<TextChannel>)
    ensures m.mentions == [] ==> r == []
    ensures r != [] ==> m.guild.Some? && r == ChannelsOf(guilds, m.guild.value)
  {
    if m.guild.Some? && m.guild.value in guilds && m.mentions != [] then guilds[m.guild.value] else []
  }

  /** Each monitoring channel of the guild gets exactly one alert for a message with
      mentions, and no channel gets one otherwise. */
  lemma AlertedOnce(guilds: map<int, seq<TextChannel>>, m: Message, c: TextChannel)
    requires WellFormed(guilds)
    ensures multiset(Targets(guilds, m))[c] ==
      if m.guild.Some? && c in ChannelsOf(guilds, m.guild.value) && m.mentions != [] then 1 else 0
  {
    var t := Targets(guilds, m);
    if c in t {
      var i :| 0 <= i < |t| && t[i] == c;
      assert t == t[..i] + [c] + t[i + 1..];
      assert m.guild.Some? && m.guild.value in guilds && t == guilds[m.guild.value];
      var g := m.guild.value;
      assert NoDuplicates(guilds[g]) && forall x :: x in guilds[g] ==> x.guild == g;
      assert NoDuplicates(t);
      forall j | 0 <= j < |t| && j != i
        ensures t[j] != c
      {
        if j < i {
          assert t[j] != t[i];
        } else {
          assert t[i] != t[j];
        }
      }
      assert c !in t[..i] && c !in t[i + 1..];
    }
  }

  /** The dictionary `setup` builds: each loaded channel appended to its guild's list. */
  function Grouped(cs: seq<TextChannel>): (r: map<int, seq<TextChannel>>)
    ensures forall g :: g in r ==> r[g] != []
  {
    if cs == [] then map[]
    else
      var m := Grouped(cs[..|cs| - 1]);
      var c := cs[|cs| - 1];
      m[c.guild := ChannelsOf(m, c.guild) + [c]]
  }

  /** The channels of `cs` that belong to guild `g`, in order. */
  function InGuild(cs: seq<TextChannel>, g: int): (r: seq<TextChannel>)
    ensures forall c :: c in r <==> c in cs && c.guild == g
  {
    if cs == [] then []
    else
      var pre := InGuild(cs[..|cs| - 1], g);
      var c := cs[|cs| - 1];
      assert forall x :: x in cs <==> x in cs[..|cs| - 1] || x == c;
      if c.guild == g then pre + [c] else pre
  }

  /** `setup` groups by guild: the keys are the guilds of the loaded channels, and each
      guild's list is its channels in load order. */
  lemma {:induction false} GroupedByGuild(cs: seq<TextChannel>, g: int)
    ensures g in Grouped(cs) <==> exists c :: c in cs && c.guild == g
    ensures ChannelsOf(Grouped(cs), g) == InGuild(cs, g)
  {
    if cs != [] {
      var pre := cs[..|cs| - 1];
      GroupedByGuild(pre, g);
      assert forall x :: x in cs <==> x in pre || x == cs[|cs| - 1];
    }
  }

  /** Distinct stored channels (the table's `channel_id` is UNIQUE) give a well-formed map. */
  lemma GroupedWellFormed(cs: seq<TextChannel>)
    requires NoDuplicates(cs)
    ensures WellFormed(Grouped(cs))
  {
    forall g | g in Grouped(cs)
      ensures NoDuplicates(Grouped(cs)[g]) && forall c :: c in Grouped(cs)[g] ==> c.guild == g
    {
      GroupedByGuild(cs, g);
      InGuildNoDuplicates(cs, g);
    }
  }

  lemma {:induction false} InGuildNoDuplicates(cs: seq<TextChannel>, g: int)
    requires NoDuplicates(cs)
    ensures NoDuplicates(InGuild(cs, g))
  {
    if cs != [] {
      var pre := cs[..|cs| - 1];
      assert NoDuplicates(pre);
      InGuildNoDuplicates(pre, g);
      var c := cs[|cs| - 1];
      assert forall j :: 0 <= j < |pre| ==> pre[j] == cs[j] != c;
      assert c !in pre;
      var r := InGuild(cs, g);
      if c.guild == g {
        var p := InGuild(pre, g);
        forall i, j | 0 <= i < j < |r|
          ensures r[i] != r[j]
        {
          if j == |r| - 1 {
            assert r[i] == p[i] && p[i] in p;
          } else {
            assert r[i] == p[i] && r[j] == p[j];
          }
        }
      }
    }
  }

  /** The stored channel ids resolved with `get_channel`: None for one no longer cached. */
  predicate AllResolved(rows: seq<Option<TextChannel>>)
  {
    forall i :: 0 <= i < |rows| ==> rows[i].Some?
  }

  function Resolved(rows: seq<Option<TextChannel>>): (r: seq<TextChannel>)
    requires AllResolved(rows)
    ensures |r| == |rows| && forall i :: 0 <= i < |rows| ==> r[i] == rows[i].value
  {
    if rows == [] then [] else Resolved(rows[..|rows| - 1]) + [rows[|rows| - 1].value]
  }

  /** `setup`'s loading loop: `channel.guild` on a channel that did not resolve raises
      AttributeError; otherwise every channel is grouped under its guild. */
  method Setup(rows: seq<Option<TextChannel>>) returns (r: Result<map<int, seq<TextChannel>>>)
    ensures r.Err? <==> !AllResolved(rows)
    ensures r.Err? ==> r.error == AttributeError
    ensures r.Ok? ==> AllResolved(rows) && r.value == Grouped(Resolved(rows))
  {
    var channels: map<int, seq<TextChannel>> := map[];
    for i := 0 to |rows|
      invariant AllResolved(rows[..i]) && channels == Grouped(Resolved(rows[..i]))
    {
      if rows[i].None? {
        assert !AllResolved(rows);
        return Err(AttributeError);
      }
      var channel := rows[i].value;
      assert rows[..i + 1][..i] == rows[..i];
      channels := channels[channel.guild := ChannelsOf(channels, channel.guild) + [channel]];
    }
    assert rows[..|rows|] == rows;
    return Ok(channels);
  }

  /** Adding a channel and then removing it leaves its guild's list as it was, with the key
      that `setdefault` created. */
  lemma AddThenRemove(guilds: map<int, seq<TextChannel>>, c: TextChannel)
    requires c !in ChannelsOf(guilds, c.guild)
    ensures var added := guilds[c.guild := ChannelsOf(guilds, c.guild) + [c]];
      added[c.guild := RemoveFirst(ChannelsOf(added, c.guild), c)] == guilds[c.guild := ChannelsOf(guilds, c.guild)]
  {
    AddRemoveRoundTrip(ChannelsOf(guilds, c.guild), c);
  }

  class MentionMonitorCog {
    /** Guild id to the channels monitoring it. */
    var guilds: map<int, seq<TextChannel>>

    constructor (guilds: map<int, seq<TextChannel>>)
      ensures this.guilds == guilds
    {
      this.guilds := guilds;
    }

    /** `on_message`: one alert per channel of the message's guild when it mentions someone. */
    method OnMessage(m: Message) returns (alerts: seq<Alert>)
      ensures |alerts| == |Targets(guilds, m)|
      ensures forall i :: 0 <= i < |alerts| ==> alerts[i] == Alert(Targets(guilds, m)[i], Description(m), m.jumpUrl)
    {
      alerts := [];
      if m.guild.Some? && m.guild.value in guilds && m.mentions != [] {
        var description := Description(m);
        var channels := guilds[m.guild.value];
        for i := 0 to |channels|
          invariant |alerts| == i
          invariant forall j :: 0 <= j < i ==> alerts[j] == Alert(channels[j], description, m.jumpUrl)
        {
          alerts := alerts + [Alert(channels[i], description, m.jumpUrl)];
        }
      }
    }

    /** `add_channel`: append to the guild's list and report True only when the channel was
        absent; the guild's key exists afterwards in either case. */
    method AddChannel(c: TextChannel) returns (added: bool)
      modifies this
      ensures added <==> c !in ChannelsOf(old(guilds), c.guild)
      ensures guilds == old(guilds)[c.guild := ChannelsOf(old(guilds), c.guild) + if added then [c] else []]
      ensures WellFormed(old(guilds)) ==> WellFormed(guilds)
    {
      var list := ChannelsOf(guilds, c.guild);
      guilds := guilds[c.guild := list];
      if c !in list {
        guilds := guilds[c.guild := list + [c]];
        assert NoDuplicates(list) ==> NoDuplicates(list + [c]);
        return true;
      }
      assert list + [] == list;
      return false;
    }

    /** `remove_channel`: remove the channel and report True only when it was present; the
        guild's key exists afterwards in either case. */
    method RemoveChannel(c: TextChannel) returns (removed: bool)
      modifies this
      ensures removed <==> c in ChannelsOf(old(guilds), c.guild)
      ensures removed ==> guilds == old(guilds)[c.guild := RemoveFirst(ChannelsOf(old(guilds), c.guild), c)]
      ensures !removed ==> guilds == old(guilds)[c.guild := ChannelsOf(old(guilds), c.guild)]
      ensures WellFormed(old(guilds)) ==> WellFormed(guilds) && c !in guilds[c.guild]
    {
      var list := ChannelsOf(guilds, c.guild);
      guilds := guilds[c.guild := list];
      if c in list {
        if WellFormed(old(guilds)) {
          RemoveFirstNoDuplicates(list, c);
          RemovedStillInGuild(list, c, c.guild);
        }
        guilds := guilds[c.guild := RemoveFirst(list, c)];
        return true;
      }
      return false;
    }

    /** The `mentions` command: `start` adds the current channel, `stop` removes it. */
    method MonitorMentions(action: Action, channel: TextChannel) returns (reply: Reply)
      modifies this
      ensures action == Start ==>
        reply == if Monitors(old(guilds), channel) then Reply(AlreadyRunning, true) else Reply(Started, false)
      ensures action == Stop ==>
        reply == if Monitors(old(guilds), channel) then Reply(Stopped, false) else Reply(NotRunning, true)
      ensures action == Start ==> Monitors(guilds, channel)
      ensures action == Stop && WellFormed(old(guilds)) ==> !Monitors(guilds, channel)
      ensures action == Start ==> guilds == old(guilds)[channel.guild :=
        ChannelsOf(old(guilds), channel.guild) + if Monitors(old(guilds), channel) then [] else [channel]]
      ensures action == Stop ==> guilds == old(guilds)[channel.guild :=
        if Monitors(old(guilds), channel) then RemoveFirst(ChannelsOf(old(guilds), channel.guild), channel)
        else ChannelsOf(old(guilds), channel.guild)]
      ensures WellFormed(old(guilds)) ==> WellFormed(guilds)
    {
      if action == Start {
        var added := AddChannel(channel);
        assert Monitors(guilds, channel) by {
          assert guilds[channel.guild] == ChannelsOf(old(guilds), channel.guild) + if added then [channel] else [];
        }
        reply := if added then Reply(Started, false) else Reply(AlreadyRunning, true);
      } else {
        var removed := RemoveChannel(channel);
        reply := if removed then Reply(Stopped, false) else Reply(NotRunning, true);
      }
    }
  }

  /** Whether `c` is among its guild's monitoring channels. */
  predicate Monitors(guilds: map<int, seq<TextChannel>>, c: TextChannel)
  {
    c in ChannelsOf(guilds, c.guild)
  }

  lemma RemovedStillInGuild(list: seq<TextChannel>, c: TextChannel, g: int)
    requires c in list && forall x :: x in list ==> x.guild == g
    ensures forall x :: x in RemoveFirst(list, c) ==> x.guild == g
  {
    forall x | x in RemoveFirst(list, c)
      ensures x.guild == g
    {
      assert x in multiset(RemoveFirst(list, c));
    }
  }
}
