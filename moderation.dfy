/** The purge command: the minutes argument is clamped into an hour, the channel history of
    that window is walked oldest first, and the messages are deleted in batches of at most
    one hundred, skipping the bot's own replies to earlier purges. */
module Moderation {
  import opened Common

  /** Largest batch `delete_messages` is handed. */
  const BatchSize: nat := 100

  /** `max(min(minutes, 60), 1)`. */
  function ClampMinutes(minutes: int): (r: int)
    ensures 1 <= r <= 60
    ensures 1 <= minutes <= 60 ==> r == minutes
    ensures minutes < 1 ==> r == 1
    ensures minutes > 60 ==> r == 60
  {
    Max(Min(minutes, 60), 1)
  }

  /** A message of the history: its id and, when it answers a slash command, that
      command's name. */
  datatype Message = Message(id: int, interaction: Option<string>)

  /** `message.interaction and message.interaction.name == "purge"`. */
  predicate Skipped(m: Message)
  {
    m.interaction.Some? && m.interaction.value == "purge"
  }

  /** The messages of `history` that are deleted, in history order. */
  function Kept(history: seq<Message>): (r: seq<Message>)
    ensures |r| <= |history|
    ensures forall i :: 0 <= i < |r| ==> !Skipped(r[i])
  {
    if history == [] then []
    else
      var pre := Kept(history[..|history| - 1]);
      var last := history[|history| - 1];
      if Skipped(last) then pre else pre + [last]
  }

  /** The deleted messages are exactly the history's messages that are not replies to a
      purge. */
  lemma {:induction false} KeptMembers(history: seq<Message>, m: Message)
    ensures m in Kept(history) <==> m in history && !Skipped(m)
  {
    if history != [] {
      var pre := history[..|history| - 1];
      KeptMembers(pre, m);
      assert history == pre + [history[|history| - 1]];
    }
  }

  /** Extending the history by one message keeps it exactly when it is not skipped. */
  lemma KeptStep(history: seq<Message>, i: nat)
    requires i < |history|
    ensures Kept(history[..i + 1]) == if Skipped(history[i]) then Kept(history[..i]) else Kept(history[..i]) + [history[i]]
  {
    assert history[..i + 1][..i] == history[..i];
  }

  /** The batches passed to `delete_messages`, in order, and the number of messages reported. */
  datatype Purged = Purged(batches: seq<seq<Message>>, count: nat)

  /** What `purge` does: it stops with BotMissingPermissions when the bot may not manage the
      channel's messages, and otherwise deletes over the clamped window. */
  datatype PurgeResult = MissingPermission | Deleted(minutes: int, purged: Purged)

  /** The loop over the history: every kept message joins the pending batch, a batch of one
      hundred is flushed at once, and whatever remains, possibly nothing, is flushed last. */
  method DeleteInBatches(history: seq<Message>) returns (p: Purged)
    ensures Flatten(p.batches) == Kept(history)
    ensures p.count == |Kept(history)|
    ensures p.batches != [] && |p.batches[|p.batches| - 1]| < BatchSize
    ensures forall i :: 0 <= i < |p.batches| - 1 ==> |p.batches[i]| == BatchSize
  {
    var flushed: seq<seq<Message>> := [];
    var pending: seq<Message> := [];
    var count := 0;
    for i := 0 to |history|
      invariant Flatten(flushed) + pending == Kept(history[..i])
      invariant count == |Kept(history[..i])|
      invariant |pending| < BatchSize
      invariant forall j :: 0 <= j < |flushed| ==> |flushed[j]| == BatchSize
    {
      var message := history[i];
      KeptStep(history, i);
      if Skipped(message) {
        continue;
      }
      assert Flatten(flushed) + (pending + [message]) == Kept(history[..i]) + [message];
      pending := pending + [message];
      count := count + 1;
      if |pending| == BatchSize {
        FlattenSnoc(flushed, pending);
        flushed := flushed + [pending];
        pending := [];
        assert Flatten(flushed) + pending == Flatten(flushed);
      }
    }
    assert history[..|history|] == history;
    FlattenSnoc(flushed, pending);
    p := Purged(flushed + [pending], count);
  }

  /** `purge(minutes)`: the permission check, the clamp, then the batches over the history
      the channel returns for the clamped window. */
  method Purge(canManageMessages: bool, minutes: int := 5, history: seq<Message>) returns (r: PurgeResult)
    ensures !canManageMessages <==> r == MissingPermission
    ensures r.Deleted? ==> r.minutes == ClampMinutes(minutes) && Flatten(r.purged.batches) == Kept(history)
    ensures r.Deleted? ==> r.purged.count == |Kept(history)|
    ensures r.Deleted? ==> r.purged.batches != [] && |r.purged.batches[|r.purged.batches| - 1]| < BatchSize
    ensures r.Deleted? ==> forall i :: 0 <= i < |r.purged.batches| - 1 ==> |r.purged.batches[i]| == BatchSize
  {
    if !canManageMessages {
      return MissingPermission;
    }
    var clamped := ClampMinutes(minutes);
    var p := DeleteInBatches(history);
    return Deleted(clamped, p);
  }

  /** Every batch flushed before the last holds exactly one hundred messages, so the number of
      batches is fixed by the number of kept messages. */
  lemma {:induction false} BatchCount(batches: seq<seq<Message>>)
    requires batches != [] && |batches[|batches| - 1]| < BatchSize
    requires forall i :: 0 <= i < |batches| - 1 ==> |batches[i]| == BatchSize
    ensures |batches| == |Flatten(batches)| / BatchSize + 1
    ensures |batches[|batches| - 1]| == |Flatten(batches)| % BatchSize
  {
    var pre := batches[..|batches| - 1];
    FlattenSnoc(pre, batches[|batches| - 1]);
    assert pre + [batches[|batches| - 1]] == batches;
    FlattenFull(pre);
  }

  lemma {:induction false} FlattenFull(batches: seq<seq<Message>>)
    requires forall i :: 0 <= i < |batches| ==> |batches[i]| == BatchSize
    ensures |Flatten(batches)| == |batches| * BatchSize
  {
    if batches != [] {
      FlattenFull(batches[1..]);
    }
  }
}
