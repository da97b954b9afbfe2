/** The chat-activity tracker: per user, a bounded first-in-first-out list of the ids
    of their last three counted messages in the Logo Builders guild, pruned of
    messages older than a week. A user whose list is full is "active" (and gets the
    role); a user whose list empties out during the hourly sweep is forgotten. */
module AntiLinks {
  import opened Common

  /** Substrings that make a message a link post. */
  const Links: seq<string> := ["discord.gg/", "discord.com/invite/", "http://", "https://"]
  const MessageLimit: nat := 3
  const LogoBuildersId: int := 297657542572507137

  /** Discord's epoch (2015-01-01T00:00:00Z) in milliseconds since the Unix epoch. */
  const DiscordEpoch: int := 1420070400000
  /** A snowflake keeps its millisecond timestamp above its low 22 bits. */
  const TimestampUnit: int := 4194304
  /** `timedelta(days=7)` in milliseconds. */
  const WeekMs: int := 604800000

  // ---------------------------------------------------------------------------
  // Snowflakes and message age
  // ---------------------------------------------------------------------------

  /** `snowflake_time(id)` in milliseconds: `(id >> 22) + DISCORD_EPOCH`. */
  function SnowflakeTime(id: int): int
  {
    id / TimestampUnit + DiscordEpoch
  }

  /** `time_snowflake(dt)` for a time in milliseconds (low bits zero). */
  function TimeSnowflake(ms: int): int
  {
    (ms - DiscordEpoch) * TimestampUnit
  }

  /** The snowflake made for a time reads back as that time. */
  lemma SnowflakeRoundTrip(ms: int)
    ensures SnowflakeTime(TimeSnowflake(ms)) == ms
  {
    var x := ms - DiscordEpoch;
    assert (x * TimestampUnit) / TimestampUnit == x;
  }

  /** Reading a snowflake's time drops only its low 22 bits: the id lies in the block
      of ids that starts at the snowflake made for that time. */
  lemma SnowflakeTimeBlock(id: int)
    ensures TimeSnowflake(SnowflakeTime(id)) <= id < TimeSnowflake(SnowflakeTime(id)) + TimestampUnit
  {
    var q := id / TimestampUnit;
    assert TimeSnowflake(SnowflakeTime(id)) == q * TimestampUnit;
  }

  /** A message is kept while it is strictly younger than seven days. */
  predicate Recent(id: int, nowMs: int)
  {
    nowMs - SnowflakeTime(id) < WeekMs
  }

  /** `[m for m in messages if now - snowflake_time(m) < timedelta(days=7)]`. */
  function KeepRecent(ms: seq<int>, nowMs: int): (r: seq<int>)
    ensures |r| <= |ms|
    ensures forall i :: 0 <= i < |r| ==> Recent(r[i], nowMs)
  {
    if ms == [] then []
    else (if Recent(ms[0], nowMs) then [ms[0]] else []) + KeepRecent(ms[1..], nowMs)
  }

  /** The kept ids are exactly the recent ones. */
  lemma {:induction false} KeepRecentMembers(ms: seq<int>, nowMs: int, x: int)
    ensures x in KeepRecent(ms, nowMs) <==> x in ms && Recent(x, nowMs)
  {
    if ms != [] {
      KeepRecentMembers(ms[1..], nowMs, x);
      assert ms == [ms[0]] + ms[1..];
    }
  }

  /** Filtering distributes over concatenation, so the kept ids keep their order. */
  lemma {:induction false} KeepRecentAppend(a: seq<int>, b: seq<int>, nowMs: int)
    ensures KeepRecent(a + b, nowMs) == KeepRecent(a, nowMs) + KeepRecent(b, nowMs)
  {
    if a == [] {
      assert a + b == b;
    } else {
      var head: seq<int> := if Recent(a[0], nowMs) then [a[0]] else [];
      assert (a + b)[0] == a[0];
      assert (a + b)[1..] == a[1..] + b;
      KeepRecentAppend(a[1..], b, nowMs);
      calc {
        KeepRecent(a + b, nowMs);
        head + KeepRecent(a[1..] + b, nowMs);
        head + (KeepRecent(a[1..], nowMs) + KeepRecent(b, nowMs));
        (head + KeepRecent(a[1..], nowMs)) + KeepRecent(b, nowMs);
      }
    }
  }

  /** A list whose ids are all recent is kept whole. */
  lemma {:induction false} KeepRecentAllRecent(ms: seq<int>, nowMs: int)
    requires forall i :: 0 <= i < |ms| ==> Recent(ms[i], nowMs)
    ensures KeepRecent(ms, nowMs) == ms
  {
    if ms != [] {
      KeepRecentAllRecent(ms[1..], nowMs);
    }
  }

  /** Clearing twice at the same moment is clearing once. */
  lemma {:induction false} KeepRecentIdempotent(ms: seq<int>, nowMs: int)
    ensures KeepRecent(KeepRecent(ms, nowMs), nowMs) == KeepRecent(ms, nowMs)
  {
    var r := KeepRecent(ms, nowMs);
    forall i | 0 <= i < |r|
      ensures Recent(r[i], nowMs)
    {
      KeepRecentMembers(ms, nowMs, r[i]);
    }
    KeepRecentAllRecent(r, nowMs);
  }

  // ---------------------------------------------------------------------------
  // MessageCollection
  // ---------------------------------------------------------------------------

  /** `add_message`: append, then drop the oldest id when over the limit. */
  function AddSpec(ms: seq<int>, id: int): seq<int>
  {
    var grown := ms + [id];
    if |grown| > MessageLimit then grown[1..] else grown
  }

  /** The last `n` elements of `s` (all of them when there are fewer). */
  function LastN(s: seq<int>, n: nat): (r: seq<int>)
    ensures |r| == Min(n, |s|)
  {
    s[|s| - Min(n, |s|)..]
  }

  /** Adding the ids one after another, as successive `add_message` calls do. */
  function AddAll(ms: seq<int>, ids: seq<int>): seq<int>
    decreases |ids|
  {
    if ids == [] then ms else AddAll(AddSpec(ms, ids[0]), ids[1..])
  }

  /** From any list within the limit, a run of additions leaves exactly the last
      three ids of the whole history, oldest first. */
  lemma {:induction false} AddAllKeepsLastThree(ms: seq<int>, ids: seq<int>)
    requires |ms| <= MessageLimit
    ensures AddAll(ms, ids) == LastN(ms + ids, MessageLimit)
    decreases |ids|
  {
    if ids == [] {
      assert ms + ids == ms;
    } else {
      var next := AddSpec(ms, ids[0]);
      AddAllKeepsLastThree(next, ids[1..]);
      var whole := ms + ids;
      if |ms| + 1 > MessageLimit {
        assert next + ids[1..] == whole[1..];
        assert LastN(whole[1..], MessageLimit) == LastN(whole, MessageLimit);
      } else {
        assert next + ids[1..] == whole;
      }
    }
  }

  /** The list a collection initialised as full starts with: three copies of "now". */
  function FullAt(nowMs: int): seq<int>
  {
    [TimeSnowflake(nowMs), TimeSnowflake(nowMs), TimeSnowflake(nowMs)]
  }

  /** A collection loaded as full survives every sweep in the week after loading. */
  lemma FullAtSurvivesWeek(loadedMs: int, nowMs: int)
    requires nowMs - loadedMs < WeekMs
    ensures KeepRecent(FullAt(loadedMs), nowMs) == FullAt(loadedMs)
    ensures |KeepRecent(FullAt(loadedMs), nowMs)| == MessageLimit
  {
    SnowflakeRoundTrip(loadedMs);
    KeepRecentAllRecent(FullAt(loadedMs), nowMs);
  }

  /** One user's list of message ids, in the order they were added. */
  class MessageCollection {
    var messages: seq<int>

    ghost predicate Valid()
      reads this
    {
      |messages| <= MessageLimit
    }

    /** `MessageCollection(init_as_full)`, with "now" passed in. */
    constructor (initAsFull: bool, nowMs: int)
      ensures Valid()
      ensures messages == if initAsFull then FullAt(nowMs) else []
    {
      messages := if initAsFull then FullAt(nowMs) else [];
    }

    method AddMessage(id: int)
      requires Valid()
      modifies this
      ensures Valid()
      ensures messages == AddSpec(old(messages), id)
      ensures messages == LastN(old(messages) + [id], MessageLimit)
    {
      messages := messages + [id];
      if |messages| > MessageLimit {
        messages := messages[1..];
      }
    }

    method ClearOldMessages(nowMs: int)
      requires Valid()
      modifies this
      ensures Valid()
      ensures messages == KeepRecent(old(messages), nowMs)
    {
      messages := KeepRecent(messages, nowMs);
    }

    /** In a valid collection, full means no room is left: the next id pushes the oldest out. */
    predicate IsFull()
      reads this
      ensures Valid() ==> (IsFull() <==> |messages| >= MessageLimit)
    {
      |messages| == MessageLimit
    }
  }

  // ---------------------------------------------------------------------------
  // The cog
  // ---------------------------------------------------------------------------

  /** The parts of a Discord message the listener looks at. */
  datatype Message = Message(
    id: int,
    authorId: int,
    authorIsBot: bool,
    guildId: Option<int>,
    isDefaultType: bool,
    content: string,
    hasAttachments: bool,
    hasEmbeds: bool)

  /** Messages from bots, from DMs, from other guilds and of non-default type are ignored. */
  predicate Watched(m: Message)
    ensures Watched(m) ==> m.guildId == Some(LogoBuildersId)
    ensures m.authorIsBot || !m.isDefaultType ==> !Watched(m)
  {
    !m.authorIsBot && m.guildId.Some? && m.guildId.value == LogoBuildersId && m.isDefaultType
  }

  /** `any(link in content for link in links)`. */
  predicate AnyInfix(links: seq<string>, content: string)
  {
    links != [] && (IsInfix(links[0], content) || AnyInfix(links[1..], content))
  }

  /** Whether a watched message is added to its author's list: always when the list is
      full, otherwise only when it has no link, no attachment and no embed. */
  predicate Counted(m: Message, full: bool)
    ensures !AnyInfix(Links, m.content) && !m.hasAttachments && !m.hasEmbeds ==> Counted(m, full)
    ensures Counted(m, full) && !full ==> !m.hasAttachments && !m.hasEmbeds
  {
    if AnyInfix(Links, m.content) && !full then false
    else if (m.hasAttachments || m.hasEmbeds) && !full then false
    else true
  }

  /** A user's list after `setdefault(...).clear_old_messages()`: a new user starts empty. */
  function ClearedList(snap: map<int, seq<int>>, user: int, nowMs: int): seq<int>
  {
    KeepRecent(if user in snap then snap[user] else [], nowMs)
  }

  /** The lists by user after a watched message: the author's list (empty if new) is
      cleared, and the message is added if it counts. */
  function OnMessageSpec(snap: map<int, seq<int>>, m: Message, nowMs: int): (r: map<int, seq<int>>)
    ensures r.Keys == snap.Keys + {m.authorId}
    ensures forall k :: k in snap && k != m.authorId ==> r[k] == snap[k]
  {
    var cleared := ClearedList(snap, m.authorId, nowMs);
    snap[m.authorId := if Counted(m, |cleared| == MessageLimit) then AddSpec(cleared, m.id) else cleared]
  }

  /** A link, attachment or embed from a user whose list is not full is never counted;
      any other message is; once the list is full, every message is. */
  lemma CountedRule(m: Message, full: bool)
    ensures full ==> Counted(m, full)
    ensures !full ==> (Counted(m, full) <==> !AnyInfix(Links, m.content) && !m.hasAttachments && !m.hasEmbeds)
  {
  }

  /** Overwriting one entry twice keeps only the second value. */
  lemma UpdateTwice(m: map<int, seq<int>>, k: int, a: seq<int>, b: seq<int>)
    ensures m[k := a][k := b] == m[k := b]
  {
  }

  /** The hourly sweep: every list is cleared and the users left with nothing are dropped. */
  function SweepSpec(snap: map<int, seq<int>>, nowMs: int): (r: map<int, seq<int>>)
    ensures r.Keys <= snap.Keys
    ensures forall k :: k in r ==> r[k] != []
  {
    map k | k in snap && KeepRecent(snap[k], nowMs) != [] :: KeepRecent(snap[k], nowMs)
  }

  /** A second sweep at the same moment changes nothing. */
  lemma SweepIdempotent(snap: map<int, seq<int>>, nowMs: int)
    ensures SweepSpec(SweepSpec(snap, nowMs), nowMs) == SweepSpec(snap, nowMs)
  {
    var once := SweepSpec(snap, nowMs);
    forall k | k in once
      ensures KeepRecent(once[k], nowMs) == once[k]
    {
      KeepRecentIdempotent(snap[k], nowMs);
    }
  }

  /** One user's turn in the sweep: the list is cleared, and the user dropped if it is empty. */
  function SweepStep(snap: map<int, seq<int>>, key: int, nowMs: int): map<int, seq<int>>
    requires key in snap
  {
    var cleared := KeepRecent(snap[key], nowMs);
    if cleared == [] then snap - {key} else snap[key := cleared]
  }

  /** The lists part-way through the sweep, with the users in `pending` not yet visited. */
  function SweepPartial(before: map<int, seq<int>>, pending: set<int>, nowMs: int): map<int, seq<int>>
  {
    map k | k in before && (k in pending || KeepRecent(before[k], nowMs) != [])
      :: if k in pending then before[k] else KeepRecent(before[k], nowMs)
  }

  lemma SweepPartialStart(before: map<int, seq<int>>, nowMs: int)
    ensures SweepPartial(before, before.Keys, nowMs) == before
  {
  }

  lemma SweepPartialStep(before: map<int, seq<int>>, pending: set<int>, key: int, nowMs: int, p: map<int, seq<int>>)
    requires key in pending && pending <= before.Keys
    requires p == SweepPartial(before, pending, nowMs)
    ensures key in p
    ensures SweepPartial(before, pending - {key}, nowMs) == SweepStep(p, key, nowMs)
  {
    var q := SweepPartial(before, pending - {key}, nowMs);
    var r := SweepStep(p, key, nowMs);
    assert q.Keys == r.Keys;
    forall k | k in q
      ensures q[k] == r[k]
    {
    }
  }

  lemma SweepPartialDone(before: map<int, seq<int>>, nowMs: int)
    ensures SweepPartial(before, {}, nowMs) == SweepSpec(before, nowMs)
  {
  }

  /** `save_to_json`: the users whose list is full. */
  function FullUsers(snap: map<int, seq<int>>): (r: set<int>)
    ensures r <= snap.Keys
    ensures forall k :: k in snap ==> (k in r <==> |snap[k]| == MessageLimit)
  {
    set k | k in snap && |snap[k]| == MessageLimit
  }

  /** The lists by user after loading the saved ids at the given moment. */
  function Loaded(saved: seq<int>, nowMs: int): map<int, seq<int>>
  {
    map k | k in saved :: FullAt(nowMs)
  }

  /** Saving right after loading writes back exactly the loaded users. */
  lemma LoadSaveRoundTrip(saved: seq<int>, nowMs: int)
    ensures FullUsers(Loaded(saved, nowMs)) == set k | k in saved
  {
    var loaded := Loaded(saved, nowMs);
    forall k | k in saved
      ensures k in FullUsers(loaded)
    {
      assert |loaded[k]| == MessageLimit;
    }
  }

  /** Dropping one more present user adds it to the users dropped so far. */
  lemma DroppedStep(all: set<int>, present: set<int>, key: int)
    requires key in present && key in all
    ensures (all - present) + {key} == all - (present - {key})
  {
  }

  /** Some element of a non-empty set: the next key the sweep visits. */
  method PickKey(keys: set<int>) returns (k: int)
    requires keys != {}
    ensures k in keys
  {
    assert (forall x :: x !in keys) ==> keys == {};
    k :| k in keys;
  }

  /** The anti-links cog: a dictionary from user id to that user's collection. */
  class AntiLinksCog {
    var collectors: map<int, MessageCollection>

    ghost predicate Valid()
      reads this, collectors.Values
    {
      && (forall k1, k2 :: k1 in collectors && k2 in collectors && k1 != k2 ==> collectors[k1] != collectors[k2])
      && (forall k :: k in collectors ==> collectors[k].Valid())
    }

    /** The lists by user. */
    ghost function Snapshot(): map<int, seq<int>>
      reads this, collectors.Values
    {
      map k | k in collectors :: collectors[k].messages
    }

    /** `__init__`: every saved user id gets a collection initialised as full. */
    constructor (saved: seq<int>, nowMs: int)
      ensures Valid()
      ensures Snapshot() == Loaded(saved, nowMs)
    {
      collectors := map[];
      new;
      var i := 0;
      while i < |saved|
        invariant 0 <= i <= |saved|
        invariant Valid()
        invariant collectors.Keys == set k | k in saved[..i]
        invariant forall k :: k in collectors ==> collectors[k].messages == FullAt(nowMs)
      {
        var c := new MessageCollection(true, nowMs);
        collectors := collectors[saved[i] := c];
        assert saved[..i + 1] == saved[..i] + [saved[i]];
        i := i + 1;
      }
      assert saved[..i] == saved;
      forall k | k in saved
        ensures k in Snapshot() && Snapshot()[k] == Loaded(saved, nowMs)[k]
      {
      }
    }

    /** `save_to_json`: the ids written out (as a set; see the notes on dictionary order). */
    method SaveToJson() returns (ids: set<int>)
      requires Valid()
      ensures ids == FullUsers(Snapshot())
    {
      ids := set k | k in collectors && collectors[k].IsFull();
    }

    /** `self.collectors[key].clear_old_messages()`: only that user's list changes. */
    method ClearOne(key: int, nowMs: int)
      requires Valid() && key in collectors
      modifies collectors[key]
      ensures Valid()
      ensures Snapshot() == old(Snapshot())[key := KeepRecent(old(Snapshot())[key], nowMs)]
    {
      ghost var target := old(Snapshot())[key := KeepRecent(old(Snapshot())[key], nowMs)];
      var counter := collectors[key];
      counter.ClearOldMessages(nowMs);
      forall k | k in collectors
        ensures collectors[k].messages == target[k]
      {
        if k != key {
          assert collectors[k] != counter;
        }
      }
      assert Snapshot().Keys == target.Keys;
    }

    /** `self.collectors[key].add_message(message)`: only that user's list changes. */
    method AddOne(key: int, id: int)
      requires Valid() && key in collectors
      modifies collectors[key]
      ensures Valid()
      ensures Snapshot() == old(Snapshot())[key := AddSpec(old(Snapshot())[key], id)]
    {
      ghost var target := old(Snapshot())[key := AddSpec(old(Snapshot())[key], id)];
      var counter := collectors[key];
      counter.AddMessage(id);
      forall k | k in collectors
        ensures collectors[k].messages == target[k]
      {
        if k != key {
          assert collectors[k] != counter;
        }
      }
      assert Snapshot().Keys == target.Keys;
    }

    /** `on_message`: returns whether the message was counted and whether the author's
        list is then full (the role is granted in that case). */
    method OnMessage(m: Message, nowMs: int) returns (counted: bool, full: bool)
      requires Valid()
      modifies this, collectors.Values
      ensures Valid()
      ensures !Watched(m) ==> !counted && !full && collectors == old(collectors) && Snapshot() == old(Snapshot())
      ensures Watched(m) ==> Snapshot() == OnMessageSpec(old(Snapshot()), m, nowMs)
      ensures counted == (Watched(m) && Counted(m, |ClearedList(old(Snapshot()), m.authorId, nowMs)| == MessageLimit))
      ensures full == (counted && |Snapshot()[m.authorId]| == MessageLimit)
    {
      counted, full := false, false;
      if m.authorIsBot || m.guildId.None? || m.guildId.value != LogoBuildersId || !m.isDefaultType {
        return;
      }
      ghost var before := old(Snapshot());
      ghost var cleared := ClearedList(before, m.authorId, nowMs);
      if m.authorId !in collectors {
        var created := new MessageCollection(false, nowMs);
        collectors := collectors[m.authorId := created];
        assert Snapshot() == before[m.authorId := []];
      }
      ClearOne(m.authorId, nowMs);
      assert Snapshot() == before[m.authorId := cleared];
      var notActive := !collectors[m.authorId].IsFull();
      assert notActive == (|cleared| != MessageLimit);
      if AnyInfix(Links, m.content) && notActive {
        assert !Counted(m, |cleared| == MessageLimit);
      } else if (m.hasAttachments || m.hasEmbeds) && notActive {
        assert !Counted(m, |cleared| == MessageLimit);
      } else {
        assert Counted(m, |cleared| == MessageLimit);
        AddOne(m.authorId, m.id);
        UpdateTwice(before, m.authorId, cleared, AddSpec(cleared, m.id));
        counted := true;
        full := collectors[m.authorId].IsFull();
      }
    }

    /** One turn of the sweep loop: clear the user's list and delete the entry if it is
        now empty. */
    method SweepOne(key: int, nowMs: int) returns (emptied: bool)
      requires Valid() && key in collectors
      modifies this, collectors[key]
      ensures Valid()
      ensures emptied == (KeepRecent(old(Snapshot())[key], nowMs) == [])
      ensures forall k :: k in collectors ==> k in old(collectors) && collectors[k] == old(collectors)[k]
      ensures collectors.Keys == if emptied then old(collectors).Keys - {key} else old(collectors).Keys
      ensures Snapshot() == SweepStep(old(Snapshot()), key, nowMs)
    {
      ClearOne(key, nowMs);
      ghost var mid := Snapshot();
      assert mid[key] == KeepRecent(old(Snapshot())[key], nowMs);
      emptied := collectors[key].messages == [];
      if emptied {
        collectors := collectors - {key};
        assert Snapshot() == mid - {key};
      }
    }

    /** `hourly`: clear every collection and drop the empty ones, then save. The guild is
        looked up first; when the bot cannot see it, `guild.get_role` fails on None
        before anything is swept. Returns the dropped users (whose role is removed). */
    method Hourly(nowMs: int, guildVisible: bool) returns (outcome: Outcome, dropped: set<int>, saved: set<int>)
      requires Valid()
      modifies this, collectors.Values
      ensures Valid()
      ensures !guildVisible ==> outcome == Raised(AttributeError) && collectors == old(collectors) && Snapshot() == old(Snapshot())
      ensures guildVisible ==> outcome == Done && Snapshot() == SweepSpec(old(Snapshot()), nowMs)
      ensures guildVisible ==> dropped == old(collectors).Keys - collectors.Keys && saved == FullUsers(Snapshot())
    {
      dropped, saved := {}, {};
      if !guildVisible {
        return Raised(AttributeError), dropped, saved;
      }
      ghost var before := Snapshot();
      var keys := collectors.Keys;
      SweepPartialStart(before, nowMs);
      while keys != {}
        invariant Valid()
        invariant keys <= collectors.Keys
        invariant forall k :: k in collectors ==> k in old(collectors) && collectors[k] == old(collectors)[k]
        invariant Snapshot() == SweepPartial(before, keys, nowMs)
        invariant dropped == old(collectors).Keys - collectors.Keys
        decreases keys
      {
        var key := PickKey(keys);
        ghost var snap := Snapshot();
        SweepPartialStep(before, keys, key, nowMs, snap);
        ghost var present := collectors.Keys;
        assert key in old(collectors);
        var emptied := SweepOne(key, nowMs);
        assert Snapshot() == SweepStep(snap, key, nowMs);
        if emptied {
          assert collectors.Keys == present - {key};
          DroppedStep(old(collectors).Keys, present, key);
          dropped := dropped + {key};
        } else {
          assert collectors.Keys == present;
        }
        keys := keys - {key};
      }
      SweepPartialDone(before, nowMs);
      saved := SaveToJson();
      outcome := Done;
    }
  }
}
