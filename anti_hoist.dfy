/** Nickname de-hoisting: a member whose display name sorts before 'A' (and so floats to
    the top of the member list) is renamed by peeling characters off the front of the
    name, falling back to the account's global name and then to "no hoisting". */
module AntiHoist {
  import opened Common

  // ---------------------------------------------------------------------------
  // Candidate names
  // ---------------------------------------------------------------------------

  /** Python's `name < 'A'`: the empty string, or one whose first character is below 'A'. */
  predicate Below(s: string)
  {
    s == [] || s[0] < 'A'
  }

  const NoHoisting: string := "no hoisting"

  /** Python's `s.replace('/u/', '')`: one left-to-right pass over non-overlapping matches. */
  function RemoveU(s: string): (r: string)
    ensures |r| <= |s|
  {
    if |s| >= 3 && s[..3] == "/u/" then RemoveU(s[3..])
    else if s == [] then []
    else [s[0]] + RemoveU(s[1..])
  }

  /** A name without "/u/" in it is left as it is. */
  lemma {:induction false} RemoveUNoMatch(s: string)
    requires !IsInfix("/u/", s)
    ensures RemoveU(s) == s
  {
    if s != [] {
      assert !("/u/" <= s);
      assert |s| >= 3 ==> s[..3] != "/u/";
      RemoveUNoMatch(s[1..]);
    }
  }

  /** Each match is removed. */
  lemma RemoveUExample()
    ensures RemoveU("a/u/b") == "ab"
  {
    var s := "a/u/b";
    assert s[..3] != "/u/" && s[1..][..3] == "/u/" && s[1..][3..] == "b";
    assert RemoveU("b") == "b" by {
      assert "b"[1..] == [];
    }
  }

  /** The pass does not rescan what it produces: "/u/" can survive it. */
  lemma RemoveULeavesJoinedMatch()
    ensures RemoveU("//u/u/") == "/u/"
  {
    var s := "//u/u/";
    assert s[..3][1] != "/u/"[1];
    assert s[1..] == "/u/u/" && s[1..][..3] == "/u/" && s[1..][3..] == "u/";
    assert RemoveU("u/") == "u/" by {
      assert "u/"[1..] == "/";
      assert "/"[1..] == [];
    }
  }

  /** One turn of the inner loop as written: remember the *second* character, drop the
      first, and drop the last if it equals the remembered one. A one-character name has
      no second character: IndexError. */
  function Step(s: string): (r: Result<string>)
    requires s != []
    ensures r.Err? <==> |s| == 1
    ensures r.Err? ==> r.error == IndexError
    ensures r.Ok? ==> |r.value| < |s| && r.value <= s[1..]
    ensures r.Ok? ==> (r.value == s[1..] <==> s[|s| - 1] != s[1])
    ensures r.Ok? && s[|s| - 1] == s[1] ==> r.value == s[1..|s| - 1]
  {
    if |s| < 2 then Err(IndexError)
    else
      var firstChar := s[1];
      var t := s[1..];
      if t[|t| - 1] == firstChar then Ok(t[..|t| - 1]) else Ok(t)
  }

  /** The inner loop: step while the candidate is non-empty and below 'A'. */
  function Inner(s: string): (r: Result<string>)
    ensures r.Ok? ==> r.value == [] || !Below(r.value)
    ensures r.Ok? ==> |r.value| <= |s|
    ensures r.Err? ==> r.error == IndexError
    decreases |s|
  {
    if s == [] || !Below(s) then Ok(s)
    else match Step(s)
      case Err(e) => Err(e)
      case Ok(t) => Inner(t)
  }

  /** What an emptied candidate becomes the first time: the global name, unless it is
      missing or empty. */
  function Fallback(globalName: Option<string>): (r: string)
    ensures r != []
  {
    if globalName.Some? && globalName.value != [] then globalName.value else NoHoisting
  }

  /** The outer loop, from candidate `c` with the `global_tried` flag `tried`. */
  function Outer(c: string, globalName: Option<string>, tried: bool): (r: Result<string>)
    ensures r.Ok? ==> !Below(r.value)
    ensures r.Err? ==> r.error == IndexError
    decreases (if tried then 0 else 2) + (if Below(c) then 1 else 0)
  {
    if !Below(c) then Ok(c)
    else match Inner(c)
      case Err(e) => Err(e)
      case Ok(t) =>
        if t != [] then Outer(t, globalName, tried)
        else Outer(if tried then NoHoisting else Fallback(globalName), globalName, true)
  }

  /** The name `remove_hoisted_name` settles on for a display name, or the exception. */
  function Dehoisted(displayName: string, globalName: Option<string>): (r: Result<string>)
    ensures r.Ok? ==> !Below(r.value)
    ensures r.Err? ==> r.error == IndexError
  {
    Outer(RemoveU(displayName), globalName, false)
  }

  /** Each step keeps a contiguous piece of the name; so does the whole inner loop. */
  lemma {:induction false} InnerIsInfix(s: string)
    ensures Inner(s).Ok? ==> IsInfix(Inner(s).value, s)
    decreases |s|
  {
    if s != [] && Below(s) && Step(s).Ok? {
      var t := Step(s).value;
      InnerIsInfix(t);
      if Inner(t).Ok? {
        InfixTrans(Inner(t).value, t, s[1..]);
        assert IsInfix(Inner(t).value, s);
      }
    }
  }

  lemma {:induction false} InfixOfPrefix(a: string, b: string)
    requires a <= b
    ensures IsInfix(a, b)
  {
  }

  /** `IsInfix(a, b)` with `b` a prefix of `c` gives `IsInfix(a, c)`. */
  lemma {:induction false} InfixTrans(a: string, b: string, c: string)
    requires IsInfix(a, b) && b <= c
    ensures IsInfix(a, c)
    decreases |b|
  {
    if a <= b {
      assert a <= c;
    } else {
      assert b != [] && IsInfix(a, b[1..]);
      assert c != [] && b[1..] <= c[1..];
      InfixTrans(a, b[1..], c[1..]);
    }
  }

  /** A name that is already fine (after the "/u/" pass) is kept. */
  lemma DehoistedKeepsFineName(displayName: string, globalName: Option<string>)
    requires !Below(RemoveU(displayName))
    ensures Dehoisted(displayName, globalName) == Ok(RemoveU(displayName))
  {
  }

  /** Where the final name comes from: a piece of the display name (after the "/u/" pass),
      a piece of the global name, or "no hoisting". */
  lemma DehoistedSource(displayName: string, globalName: Option<string>)
    ensures var r := Dehoisted(displayName, globalName);
      r.Ok? ==> IsInfix(r.value, RemoveU(displayName)) || IsInfix(r.value, Fallback(globalName)) || r.value == NoHoisting
  {
    var c := RemoveU(displayName);
    var r := Dehoisted(displayName, globalName);
    if r.Ok? {
      if !Below(c) {
        InfixOfPrefix(c, c);
      } else {
        InnerIsInfix(c);
        var t := Inner(c).value;
        if t != [] {
          assert r == Outer(t, globalName, false);
        } else {
          var g := Fallback(globalName);
          assert r == Outer(g, globalName, true);
          if !Below(g) {
            InfixOfPrefix(g, g);
          } else {
            InnerIsInfix(g);
            var u := Inner(g).value;
            if u != [] {
              assert r == Outer(u, globalName, true);
            } else {
              assert r == Outer(NoHoisting, globalName, true);
              assert !Below(NoHoisting);
            }
          }
        }
      }
    }
  }

  /** A one-character hoisted name reaches `candidate_name[1]` and raises. */
  lemma DehoistedSingleCharRaises(c: char, globalName: Option<string>)
    requires c < 'A'
    ensures Dehoisted([c], globalName) == Err(IndexError)
  {
    assert RemoveU([c]) == [c] by {
      assert [c][1..] == [];
    }
    assert Step([c]) == Err(IndexError);
    assert Inner([c]) == Err(IndexError);
  }

  /** Longer names raise too when the peeling leaves one hoisting character: "!!!" becomes
      "!" and then raises. */
  lemma DehoistedTripleBangRaises(globalName: Option<string>)
    ensures Dehoisted("!!!", globalName) == Err(IndexError)
  {
    assert RemoveU("!!!") == "!!!" by {
      assert "!!!"[..3] != "/u/";
      assert "!!!"[1..] == "!!" && "!!"[1..] == "!" && "!"[1..] == [];
    }
    assert Step("!!!") == Ok("!");
    assert Inner("!!!") == Inner("!");
    assert Step("!") == Err(IndexError);
  }

  /** An emptied candidate is replaced by the global name; if that empties as well,
      the result is "no hoisting". */
  lemma DehoistedFallbackChain(displayName: string, globalName: Option<string>)
    requires Below(RemoveU(displayName)) && Inner(RemoveU(displayName)) == Ok([])
    ensures !Below(Fallback(globalName)) ==> Dehoisted(displayName, globalName) == Ok(Fallback(globalName))
    ensures Below(Fallback(globalName)) && Inner(Fallback(globalName)) == Ok([]) ==> Dehoisted(displayName, globalName) == Ok(NoHoisting)
  {
    var g := Fallback(globalName);
    assert Dehoisted(displayName, globalName) == Outer(g, globalName, true);
    if Below(g) && Inner(g) == Ok([]) {
      assert Outer(g, globalName, true) == Outer(NoHoisting, globalName, true);
      assert !Below(NoHoisting);
    }
  }

  // ---------------------------------------------------------------------------
  // The evidently intended step
  // ---------------------------------------------------------------------------

  /** The step with the character actually dropped (`candidate_name[0]`) remembered, which
      the variable name `first_char` calls for: a name wrapped in the same character on
      both sides loses both. */
  function StepIntended(s: string): (r: string)
    requires s != []
    ensures |r| < |s| && r <= s[1..]
  {
    var t := s[1..];
    if t != [] && t[|t| - 1] == s[0] then t[..|t| - 1] else t
  }

  function InnerIntended(s: string): (r: string)
    ensures r == [] || !Below(r)
    ensures IsInfix(r, s)
    decreases |s|
  {
    if s == [] || !Below(s) then
      InfixOfPrefix(s, s);
      s
    else
      var t := StepIntended(s);
      var r := InnerIntended(t);
      InfixTrans(r, t, s[1..]);
      r
  }

  function OuterIntended(c: string, globalName: Option<string>, tried: bool): (r: string)
    ensures !Below(r)
    decreases (if tried then 0 else 2) + (if Below(c) then 1 else 0)
  {
    if !Below(c) then c
    else
      var t := InnerIntended(c);
      if t != [] then OuterIntended(t, globalName, tried)
      else OuterIntended(if tried then NoHoisting else Fallback(globalName), globalName, true)
  }

  /** With the intended step, every display name yields a name that is not hoisted. */
  function DehoistedIntended(displayName: string, globalName: Option<string>): (r: string)
    ensures !Below(r)
  {
    OuterIntended(RemoveU(displayName), globalName, false)
  }

  /** Where both agree: a name that needs no peeling. */
  lemma DehoistedIntendedAgrees(displayName: string, globalName: Option<string>)
    requires !Below(RemoveU(displayName))
    ensures Dehoisted(displayName, globalName) == Ok(DehoistedIntended(displayName, globalName))
  {
  }

  /** The intended step turns the one-character name "!" into the fallback name. */
  lemma DehoistedIntendedSingleChar(c: char, globalName: Option<string>)
    requires c < 'A'
    requires !Below(Fallback(globalName))
    ensures DehoistedIntended([c], globalName) == Fallback(globalName)
  {
    assert RemoveU([c]) == [c] by {
      assert [c][1..] == [];
    }
    assert StepIntended([c]) == [];
    assert InnerIntended([c]) == [];
    assert OuterIntended([c], globalName, false) == OuterIntended(Fallback(globalName), globalName, true);
  }

  // ---------------------------------------------------------------------------
  // The cog
  // ---------------------------------------------------------------------------

  /** The parts of a member the listener looks at. */
  datatype Member = Member(guild: int, displayName: string, globalName: Option<string>, manageMessages: bool)

  /** What `remove_hoisted_name` does to a member. */
  datatype Action = Skip | Rename(nick: string)

  /** The `action` choice of the `hoisting` command. */
  datatype Switch = Stop | Start

  /** The four messages the `hoisting` command can send. */
  datatype ReplyKind = Started | AlreadyRunning | Stopped | NotRunning

  function ReplyText(k: ReplyKind): string
  {
    match k
    case Started => "Will remove hoisted usernames in this server"
    case AlreadyRunning => "Failed to start. Anti-hoisting is probably already running in this server"
    case Stopped => "Stopped anti-hoisting in this server"
    case NotRunning => "Failed to stop. Anti-hoisting probably isn't running in this server"
  }

  /** A reply to the `hoisting` command. */
  datatype Reply = Reply(kind: ReplyKind, ephemeral: bool)

  class AntiHoistCog {
    /** The guilds where anti-hoisting runs, in the order they were added. */
    var guilds: seq<int>

    constructor (guilds: seq<int>)
      ensures this.guilds == guilds
    {
      this.guilds := guilds;
    }

    /** `add_guild`: append and report True only when the guild was absent. */
    method AddGuild(g: int) returns (added: bool)
      modifies this
      ensures added <==> g !in old(guilds)
      ensures guilds == if added then old(guilds) + [g] else old(guilds)
      ensures NoDuplicates(old(guilds)) ==> NoDuplicates(guilds)
    {
      if g !in guilds {
        guilds := guilds + [g];
        return true;
      }
      return false;
    }

    /** `remove_guild`: remove and report True only when the guild was present. */
    method RemoveGuild(g: int) returns (removed: bool)
      modifies this
      ensures removed <==> g in old(guilds)
      ensures guilds == if removed then RemoveFirst(old(guilds), g) else old(guilds)
    {
      if g in guilds {
        guilds := RemoveFirst(guilds, g);
        return true;
      }
      return false;
    }

    /** The `hoisting` command: `start` adds the current guild, `stop` removes it; the
        failure replies are ephemeral. */
    method Hoisting(action: Switch, g: int) returns (reply: Reply)
      modifies this
      ensures action == Start ==>
        reply == (if g in old(guilds) then Reply(AlreadyRunning, true) else Reply(Started, false))
        && g in guilds
      ensures action == Stop ==>
        reply == (if g in old(guilds) then Reply(Stopped, false) else Reply(NotRunning, true))
        && (NoDuplicates(old(guilds)) ==> g !in guilds)
      ensures action == Start ==> guilds == if g in old(guilds) then old(guilds) else old(guilds) + [g]
      ensures action == Stop ==> guilds == if g in old(guilds) then RemoveFirst(old(guilds), g) else old(guilds)
      ensures NoDuplicates(old(guilds)) ==> NoDuplicates(guilds)
    {
      if action == Start {
        var added := AddGuild(g);
        reply := if added then Reply(Started, false) else Reply(AlreadyRunning, true);
      } else {
        var removed := RemoveGuild(g);
        if removed && NoDuplicates(old(guilds)) {
          RemoveFirstNoDuplicates(old(guilds), g);
        }
        reply := if removed then Reply(Stopped, false) else Reply(NotRunning, true);
      }
    }

    /** The candidate-name loop of `remove_hoisted_name`, as written. */
    static method Dehoist(displayName: string, globalName: Option<string>) returns (r: Result<string>)
      ensures r == Dehoisted(displayName, globalName)
    {
      var globalTried := false;
      var candidate := RemoveU(displayName);
      while Below(candidate)
        invariant Outer(candidate, globalName, globalTried) == Dehoisted(displayName, globalName)
        decreases (if globalTried then 0 else 2) + (if Below(candidate) then 1 else 0)
      {
        ghost var start := candidate;
        while candidate != [] && Below(candidate)
          invariant Inner(candidate) == Inner(start)
          decreases |candidate|
        {
          if |candidate| < 2 {
            return Err(IndexError);
          }
          var firstChar := candidate[1];
          candidate := candidate[1..];
          if candidate[|candidate| - 1] == firstChar {
            candidate := candidate[..|candidate| - 1];
          }
        }
        assert Inner(start) == Ok(candidate);
        if candidate == [] {
          candidate := if globalTried then NoHoisting else Fallback(globalName);
          globalTried := true;
        }
      }
      return Ok(candidate);
    }

    /** The candidate-name loop with the step corrected to remember `candidate_name[0]`. */
    static method DehoistCorrected(displayName: string, globalName: Option<string>) returns (r: string)
      ensures r == DehoistedIntended(displayName, globalName)
    {
      var globalTried := false;
      var candidate := RemoveU(displayName);
      while Below(candidate)
        invariant OuterIntended(candidate, globalName, globalTried) == DehoistedIntended(displayName, globalName)
        decreases (if globalTried then 0 else 2) + (if Below(candidate) then 1 else 0)
      {
        ghost var start := candidate;
        while candidate != [] && Below(candidate)
          invariant InnerIntended(candidate) == InnerIntended(start)
          decreases |candidate|
        {
          var firstChar := candidate[0];
          candidate := candidate[1..];
          if candidate != [] && candidate[|candidate| - 1] == firstChar {
            candidate := candidate[..|candidate| - 1];
          }
        }
        if candidate == [] {
          candidate := if globalTried then NoHoisting else Fallback(globalName);
          globalTried := true;
        }
      }
      return candidate;
    }

    /** `remove_hoisted_name`, with the corrected loop: untracked guilds and members who may
        manage messages are skipped; otherwise the member is renamed when the settled name
        differs from the display name. */
    method RemoveHoistedName(m: Member) returns (action: Action)
      ensures m.guild !in guilds || m.manageMessages ==> action == Skip
      ensures m.guild in guilds && !m.manageMessages ==>
        action == (var name := DehoistedIntended(m.displayName, m.globalName);
                   if name != m.displayName then Rename(name) else Skip)
      ensures action.Rename? ==> !Below(action.nick) && action.nick != m.displayName
    {
      if m.guild !in guilds || m.manageMessages {
        return Skip;
      }
      var name := DehoistCorrected(m.displayName, m.globalName);
      if name != m.displayName {
        return Rename(name);
      }
      return Skip;
    }
  }
}
