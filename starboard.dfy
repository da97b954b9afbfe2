/** The starboard configuration: one channel per guild, chosen, changed or dropped through
    two button views. The cog's reaction listener does nothing. */
module Starboard {
  import opened Common

  /** An interaction: its id and the channel it happened in (whose guild is the guild). */
  datatype Interaction = Interaction(id: int, channel: TextChannel)

  /** The channel-choice view: a select menu and Confirm/Cancel buttons. */
  class SetupConfirm {
    var selected: Option<TextChannel>
    var nextInteraction: Option<Interaction>
    /** Whether a button called `stop()`; `wait()` reports a timeout otherwise. */
    var stopped: bool

    ghost predicate Valid()
      reads this
    {
      stopped ==> nextInteraction.Some?
    }

    constructor ()
      ensures Valid() && selected == None && nextInteraction == None && !stopped
    {
      selected := None;
      nextInteraction := None;
      stopped := false;
    }

    /** `change`: remember the first selected channel. */
    method Change(values: seq<TextChannel>) returns (outcome: Outcome)
      requires Valid()
      modifies this
      ensures Valid() && nextInteraction == old(nextInteraction) && stopped == old(stopped)
      ensures values == [] ==> outcome == Raised(IndexError) && selected == old(selected)
      ensures values != [] ==> outcome == Done && selected == Some(values[0])
    {
      if values == [] {
        return Raised(IndexError);
      }
      selected := Some(values[0]);
      return Done;
    }

    /** `confirm`: keep the selected channel, or else take the interaction's own. */
    method Confirm(interaction: Interaction)
      modifies this
      ensures Valid() && stopped && nextInteraction == Some(interaction)
      ensures selected == if old(selected).Some? then old(selected) else Some(interaction.channel)
    {
      if selected.None? {
        selected := Some(interaction.channel);
      }
      nextInteraction := Some(interaction);
      stopped := true;
    }

    /** `cancel`: forget any selection. */
    method Cancel(interaction: Interaction)
      modifies this
      ensures Valid() && stopped && nextInteraction == Some(interaction) && selected == None
    {
      selected := None;
      nextInteraction := Some(interaction);
      stopped := true;
    }
  }

  /** The view shown when a starboard already runs: Change Channel, Stop, Cancel. */
  class EditConfirm {
    var action: string
    var nextInteraction: Option<Interaction>
    var stopped: bool

    ghost predicate Valid()
      reads this
    {
      (stopped ==> nextInteraction.Some?)
      && (action == "Timeout" || action == "change" || action == "stop" || action == "cancel")
      && (stopped <==> action != "Timeout")
    }

    constructor ()
      ensures Valid() && action == "Timeout" && nextInteraction == None && !stopped
    {
      action := "Timeout";
      nextInteraction := None;
      stopped := false;
    }

    /** The Change Channel button. */
    method Confirm(interaction: Interaction)
      modifies this
      ensures Valid() && action == "change" && nextInteraction == Some(interaction)
    {
      action := "change";
      nextInteraction := Some(interaction);
      stopped := true;
    }

    /** The Stop the starboard button. */
    method Deny(interaction: Interaction)
      modifies this
      ensures Valid() && action == "stop" && nextInteraction == Some(interaction)
    {
      action := "stop";
      nextInteraction := Some(interaction);
      stopped := true;
    }

    /** The Cancel button. */
    method Cancel(interaction: Interaction)
      modifies this
      ensures Valid() && action == "cancel" && nextInteraction == Some(interaction)
    {
      action := "cancel";
      nextInteraction := Some(interaction);
      stopped := true;
    }
  }

  /** What `choose_channel` returns: nothing, or the channel `get_channel` resolved (None
      when it is not cached) and the interaction that confirmed it. */
  datatype Choice = NoChoice | Chosen(channel: Option<TextChannel>, next: Interaction)

  /** Which path the `starboard` command takes. */
  datatype Route = Edit | Start

  /** The effect of `edit_starboard` once its view has finished with `action`, taking the
      channel map from `before` to `after` with `outcome`:
      - "stop": AssertionError when the guild has no starboard; otherwise its entry is
        deleted, and reading the id of a None channel raises AttributeError;
      - "change" with a chosen channel: KeyError when the guild has no starboard; otherwise
        its channel is replaced, and AttributeError when either channel is None;
      - a timeout, a cancel, or a change with nothing chosen: no change. */
  predicate Edited(action: string, next: Option<Interaction>, choice: Choice,
                   before: map<int, Option<TextChannel>>, after: map<int, Option<TextChannel>>, outcome: Outcome)
  {
    if action == "stop" && next.Some? then
      var g := next.value.channel.guild;
      if g !in before then after == before && outcome == Raised(AssertionError)
      else after == before - {g} && outcome == (if before[g].None? then Raised(AttributeError) else Done)
    else if action == "change" && next.Some? && choice.Chosen? then
      var g := next.value.channel.guild;
      if g !in before then after == before && outcome == Raised(KeyError)
      else (after == before[g := choice.channel]
            && outcome == (if choice.channel.None? || before[g].None? then Raised(AttributeError) else Done))
    else after == before && outcome == Done
  }

  /** After a stop the guild has no starboard, so its next `starboard` command starts one;
      any other finished edit keeps whether it has one. */
  lemma EditedMembership(action: string, i: Interaction, choice: Choice,
                         before: map<int, Option<TextChannel>>, after: map<int, Option<TextChannel>>, outcome: Outcome)
    requires Edited(action, Some(i), choice, before, after, outcome)
    ensures action == "stop" ==> i.channel.guild !in after
    ensures action != "stop" ==> (i.channel.guild in after <==> i.channel.guild in before)
  {
  }

  /** The map `setup` loads: each stored channel under its guild, a later one replacing an
      earlier one of the same guild. */
  function Board(cs: seq<TextChannel>): (r: map<int, Option<TextChannel>>)
    ensures forall g :: g in r ==> r[g].Some? && r[g].value.guild == g
  {
    if cs == [] then map[] else Board(cs[..|cs| - 1])[cs[|cs| - 1].guild := Some(cs[|cs| - 1])]
  }

  /** A guild is a key exactly when some stored channel is in it, and its channel is the
      last such one. */
  lemma {:induction false} BoardLastWins(cs: seq<TextChannel>, g: int)
    ensures g in Board(cs) <==> exists i :: 0 <= i < |cs| && cs[i].guild == g
    ensures g in Board(cs) ==> exists k :: (0 <= k < |cs| && Board(cs)[g] == Some(cs[k]) && cs[k].guild == g
      && forall j :: k < j < |cs| ==> cs[j].guild != g)
  {
    if cs != [] {
      var pre := cs[..|cs| - 1];
      BoardLastWins(pre, g);
      if g in Board(cs) && cs[|cs| - 1].guild != g {
        var k :| 0 <= k < |pre| && Board(pre)[g] == Some(pre[k]) && pre[k].guild == g
          && forall j :: k < j < |pre| ==> pre[j].guild != g;
        assert cs[k] == pre[k];
      }
      if exists i :: 0 <= i < |cs| && cs[i].guild == g {
        var i :| 0 <= i < |cs| && cs[i].guild == g;
        if i < |cs| - 1 {
          assert pre[i].guild == g;
        }
      }
    }
  }

  predicate AllResolved(rows: seq<Option<TextChannel>>)
  {
    forall i :: 0 <= i < |rows| ==> rows[i].Some?
  }

  function Resolved(rows: seq<Option<TextChannel>>): (r: seq<TextChannel>)
    requires AllResolved(rows)
    ensures |r| == |rows| && forall i :: 0 <= i < |rows| ==> r[i] == rows[i].value
  {
    if rows == [] then [] else Resolved(rows[..|rows| - 1]) + [rows[|rows| - 1].value]
  }

  /** `setup`'s loading loop: `channel.guild` on a stored id that no longer resolves raises
      AttributeError; otherwise each channel is stored under its guild. */
  method Setup(rows: seq<Option<TextChannel>>) returns (r: Result<map<int, Option<TextChannel>>>)
    ensures r.Err? <==> !AllResolved(rows)
    ensures r.Err? ==> r.error == AttributeError
    ensures r.Ok? ==> AllResolved(rows) && r.value == Board(Resolved(rows))
  {
    var guilds: map<int, Option<TextChannel>> := map[];
    for i := 0 to |rows|
      invariant AllResolved(rows[..i]) && guilds == Board(Resolved(rows[..i]))
    {
      if rows[i].None? {
        assert !AllResolved(rows);
        return Err(AttributeError);
      }
      var channel := rows[i].value;
      assert rows[..i + 1][..i] == rows[..i];
      guilds := guilds[channel.guild := Some(channel)];
    }
    assert rows[..|rows|] == rows;
    return Ok(guilds);
  }

  class StarboardCog {
    /** Guild id to its starboard channel; None is a Python None stored when `get_channel`
        could not resolve the chosen channel. */
    var guilds: map<int, Option<TextChannel>>

    constructor (guilds: map<int, Option<TextChannel>>)
      ensures this.guilds == guilds
    {
      this.guilds := guilds;
    }

    /** `choose_channel` once the view has finished: nothing on a timeout or a cancel, else
        the channel `get_channel` returns for the selection (`cached`). */
    method ChooseChannel(view: SetupConfirm, cached: Option<TextChannel>) returns (choice: Choice)
      requires view.Valid()
      ensures !view.stopped || view.selected.None? <==> choice == NoChoice
      ensures view.stopped && view.selected.Some? ==> choice == Chosen(cached, view.nextInteraction.value)
    {
      if !view.stopped {
        return NoChoice;
      }
      if view.selected.Some? {
        return Chosen(cached, view.nextInteraction.value);
      }
      return NoChoice;
    }

    /** `start_starboard`: store the chosen channel under the guild; a channel that did not
        resolve is stored as None and `channel.id` then raises AttributeError. */
    method StartStarboard(interaction: Interaction, choice: Choice) returns (outcome: Outcome)
      modifies this
      ensures choice.NoChoice? ==> guilds == old(guilds) && outcome == Done
      ensures choice.Chosen? ==> guilds == old(guilds)[interaction.channel.guild := choice.channel]
      ensures choice.Chosen? ==> (outcome == Raised(AttributeError) <==> choice.channel.None?)
      ensures choice.Chosen? && choice.channel.Some? ==> outcome == Done
    {
      if choice.NoChoice? {
        return Done;
      }
      guilds := guilds[interaction.channel.guild := choice.channel];
      if choice.channel.None? {
        return Raised(AttributeError);
      }
      return Done;
    }

    /** `stop_starboard`: the guild must have a starboard (AssertionError otherwise); its
        entry, and only it, is deleted before the stored channel's id is read. */
    method StopStarboard(interaction: Interaction) returns (outcome: Outcome)
      modifies this
      ensures var g := interaction.channel.guild;
        g !in old(guilds) ==> outcome == Raised(AssertionError) && guilds == old(guilds)
      ensures var g := interaction.channel.guild;
        g in old(guilds) ==> (guilds == old(guilds) - {g}
          && (outcome == Raised(AttributeError) <==> old(guilds)[g].None?)
          && (old(guilds)[g].Some? ==> outcome == Done))
    {
      var g := interaction.channel.guild;
      if g !in guilds {
        return Raised(AssertionError);
      }
      var channel := guilds[g];
      guilds := guilds - {g};
      if channel.None? {
        return Raised(AttributeError);
      }
      return Done;
    }

    /** `change_channel`: replace the guild's channel, and only it; KeyError when the guild
        has no starboard, AttributeError when either channel is None. */
    method ChangeChannel(interaction: Interaction, choice: Choice) returns (outcome: Outcome)
      modifies this
      ensures var g := interaction.channel.guild;
        choice.NoChoice? || g !in old(guilds) ==> guilds == old(guilds)
      ensures choice.NoChoice? ==> outcome == Done
      ensures var g := interaction.channel.guild;
        choice.Chosen? && g !in old(guilds) ==> outcome == Raised(KeyError)
      ensures var g := interaction.channel.guild;
        choice.Chosen? && g in old(guilds) ==> (guilds == old(guilds)[g := choice.channel]
          && (outcome == Raised(AttributeError) <==> choice.channel.None? || old(guilds)[g].None?)
          && (choice.channel.Some? && old(guilds)[g].Some? ==> outcome == Done))
    {
      if choice.NoChoice? {
        return Done;
      }
      var g := interaction.channel.guild;
      if g !in guilds {
        return Raised(KeyError);
      }
      var current := guilds[g];
      guilds := guilds[g := choice.channel];
      if choice.channel.None? || current.None? {
        return Raised(AttributeError);
      }
      return Done;
    }

    /** `edit_starboard` once its view has finished: nothing on a timeout or a cancel, else
        stop or change for the guild of the interaction that pressed the button. */
    method EditStarboard(view: EditConfirm, choice: Choice) returns (outcome: Outcome)
      requires view.Valid()
      modifies this
      ensures view.action == "Timeout" || view.action == "cancel" ==> guilds == old(guilds) && outcome == Done
      ensures view.action == "stop" ==> var g := view.nextInteraction.value.channel.guild;
        guilds == if g in old(guilds) then old(guilds) - {g} else old(guilds)
      ensures view.action == "change" && choice.Chosen? ==> var g := view.nextInteraction.value.channel.guild;
        guilds == if g in old(guilds) then old(guilds)[g := choice.channel] else old(guilds)
      ensures view.action == "change" && choice.NoChoice? ==> guilds == old(guilds)
      ensures Edited(view.action, view.nextInteraction, choice, old(guilds), guilds, outcome)
    {
      outcome := Done;
      if !view.stopped {
        return;
      }
      if view.action == "cancel" {
        return;
      } else if view.action == "stop" {
        outcome := StopStarboard(view.nextInteraction.value);
      } else if view.action == "change" {
        outcome := ChangeChannel(view.nextInteraction.value, choice);
      }
    }

    /** The `starboard` command: edit when the guild already has a starboard, start otherwise. */
    method Command(interaction: Interaction, view: EditConfirm, choice: Choice) returns (route: Route, outcome: Outcome)
      requires view.Valid()
      modifies this
      ensures route == Edit <==> interaction.channel.guild in old(guilds)
      ensures route == Start ==> guilds == if choice.Chosen? then old(guilds)[interaction.channel.guild := choice.channel] else old(guilds)
      ensures route == Start ==> outcome == if choice.Chosen? && choice.channel.None? then Raised(AttributeError) else Done
      ensures route == Edit ==> Edited(view.action, view.nextInteraction, choice, old(guilds), guilds, outcome)
    {
      if interaction.channel.guild in guilds {
        route := Edit;
        outcome := EditStarboard(view, choice);
      } else {
        route := Start;
        outcome := StartStarboard(interaction, choice);
      }
    }

    /** `on_raw_reaction_add` does nothing. */
    method OnRawReactionAdd(messageId: int)
      ensures guilds == old(guilds)
    {
    }
  }
}
