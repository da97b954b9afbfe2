/** The error-handler registry shared by the prefix-command and the slash-command error
    cogs: each handler declares the exception class it handles; registration refuses a
    handler that an already registered one covers at least as specifically, and dispatch
    picks the capable handler whose class has the longest MRO. Python classes are modelled
    by a single-inheritance parent map with explicit depths. */
module ErrorDispatch {
  import opened Common

  // ---------------------------------------------------------------------------
  // Class hierarchy
  // ---------------------------------------------------------------------------

  /** `parent(c)` is the base of class `c` (None for `object`); `depth(c)` its distance from
      the root; `exception` is Python's `Exception`. */
  datatype Hierarchy<!C> = Hierarchy(parent: C -> Option<C>, depth: C -> nat, exception: C)

  /** Exactly the root lacks a parent, and a class sits one level below its parent. */
  ghost predicate ValidHierarchy<C(!new)>(h: Hierarchy<C>)
  {
    forall c {:trigger h.parent(c)} ::
      (h.parent(c).Some? <==> h.depth(c) > 0)
      && (h.parent(c).Some? ==> h.depth(h.parent(c).value) + 1 == h.depth(c))
  }

  /** Python's `c.mro()` under single inheritance: the class, then its ancestors up to the root. */
  function Mro<C(==,!new)>(h: Hierarchy<C>, c: C): (r: seq<C>)
    requires ValidHierarchy(h)
    ensures |r| == h.depth(c) + 1 && r[0] == c
    ensures forall i :: 0 <= i < |r| ==> h.depth(r[i]) == h.depth(c) - i
    decreases h.depth(c)
  {
    if h.parent(c).Some? then
      var rest := Mro(h, h.parent(c).value);
      var r := [c] + rest;
      assert forall i :: 1 <= i < |r| ==> r[i] == rest[i - 1];
      r
    else [c]
  }

  /** Python's `issubclass(c, d)`. */
  predicate IsSubclass<C(==,!new)>(h: Hierarchy<C>, c: C, d: C)
    requires ValidHierarchy(h)
  {
    d in Mro(h, c)
  }

  /** The MRO from any of its entries on is that entry's own MRO. */
  lemma {:induction false} MroSuffix<C(!new)>(h: Hierarchy<C>, c: C, i: nat)
    requires ValidHierarchy(h) && i < |Mro(h, c)|
    ensures Mro(h, c)[i..] == Mro(h, Mro(h, c)[i])
    decreases h.depth(c)
  {
    if i > 0 {
      var p := h.parent(c).value;
      assert Mro(h, c)[1..] == Mro(h, p);
      MroSuffix(h, p, i - 1);
      assert Mro(h, c)[i..] == Mro(h, p)[i - 1..];
    }
  }

  /** A class is its own subclass. */
  lemma SubclassReflexive<C(!new)>(h: Hierarchy<C>, c: C)
    requires ValidHierarchy(h)
    ensures IsSubclass(h, c, c)
  {
  }

  /** A subclass sits at least as deep as its base, strictly deeper unless it is the base. */
  lemma SubclassDepth<C(!new)>(h: Hierarchy<C>, c: C, d: C)
    requires ValidHierarchy(h) && IsSubclass(h, c, d)
    ensures h.depth(d) <= h.depth(c)
    ensures h.depth(d) == h.depth(c) <==> d == c
  {
    var i :| 0 <= i < |Mro(h, c)| && Mro(h, c)[i] == d;
  }

  lemma {:induction false} SubclassTransitive<C(!new)>(h: Hierarchy<C>, a: C, b: C, c: C)
    requires ValidHierarchy(h)
    requires IsSubclass(h, a, b) && IsSubclass(h, b, c)
    ensures IsSubclass(h, a, c)
  {
    var ma := Mro(h, a);
    var i :| 0 <= i < |ma| && ma[i] == b;
    MroSuffix(h, a, i);
    var mb := Mro(h, b);
    assert mb == ma[i..];
    var j :| 0 <= j < |mb| && mb[j] == c;
    assert ma[i + j] == c;
  }

  /** `issubclass` one level at a time: a class, or a subclass of its base. */
  lemma SubclassStep<C(!new)>(h: Hierarchy<C>, c: C, d: C)
    requires ValidHierarchy(h)
    ensures IsSubclass(h, c, d) <==> c == d || (h.parent(c).Some? && IsSubclass(h, h.parent(c).value, d))
  {
  }

  /** The bases of one class form a chain: of two of them, the deeper is a subclass of the other. */
  lemma {:induction false} BasesFormChain<C(!new)>(h: Hierarchy<C>, c: C, a: C, b: C)
    requires ValidHierarchy(h)
    requires IsSubclass(h, c, a) && IsSubclass(h, c, b)
    requires h.depth(a) >= h.depth(b)
    ensures IsSubclass(h, a, b)
  {
    var m := Mro(h, c);
    var i :| 0 <= i < |m| && m[i] == a;
    var j :| 0 <= j < |m| && m[j] == b;
    assert h.depth(m[i]) == h.depth(c) - i && h.depth(m[j]) == h.depth(c) - j;
    MroSuffix(h, c, i);
    assert Mro(h, a) == m[i..];
    assert m[i..][j - i] == b;
  }

  /** Two bases of one class at the same depth are the same class. */
  lemma SameDepthBases<C(!new)>(h: Hierarchy<C>, c: C, a: C, b: C)
    requires ValidHierarchy(h) && IsSubclass(h, c, a) && IsSubclass(h, c, b)
    requires h.depth(a) == h.depth(b)
    ensures a == b
  {
    BasesFormChain(h, c, a, b);
    SubclassDepth(h, a, b);
  }

  // ---------------------------------------------------------------------------
  // Handlers
  // ---------------------------------------------------------------------------

  /** A handler: its class name, and the exception class `i_handle()` returns. */
  datatype Handler<C> = Handler(name: string, handles: C)

  /** What `add_handler` may be given: a `HandlerMeta` instance or anything else. */
  datatype Candidate<C> = IsHandler(handler: Handler<C>) | NotAHandler

  /** What `can_handle` may be given: an instance of a class, a class, or another value. */
  datatype ErrArg<C> = Instance(cls: C) | ClassObj(cls: C) | OtherValue

  /** `can_handle(err)`: an `Exception` instance is tested with `isinstance`; anything else
      goes to `issubclass`, which raises TypeError unless it is a class. */
  function CanHandle<C(==,!new)>(h: Hierarchy<C>, handler: Handler<C>, err: ErrArg<C>): (r: Result<bool>)
    requires ValidHierarchy(h)
    ensures r.Err? <==> err.OtherValue? || (err.Instance? && !IsSubclass(h, err.cls, h.exception))
    ensures r.Err? ==> r.error == TypeError
    ensures r.Ok? ==> (r.value <==> IsSubclass(h, err.cls, handler.handles))
  {
    match err
      case Instance(c) =>
        if IsSubclass(h, c, h.exception) then Ok(IsSubclass(h, c, handler.handles)) else Err(TypeError)
      case ClassObj(c) => Ok(IsSubclass(h, c, handler.handles))
      case OtherValue => Err(TypeError)
  }

  /** Whether `can_handle(err)` raises: it depends on `err` alone. */
  predicate ArgRaises<C(==,!new)>(h: Hierarchy<C>, err: ErrArg<C>)
    requires ValidHierarchy(h)
  {
    err.OtherValue? || (err.Instance? && !IsSubclass(h, err.cls, h.exception))
  }

  /** `[i for i in handlers if i.can_handle(err)]`; the first `can_handle` that raises ends it. */
  function Capable<C(==,!new)>(h: Hierarchy<C>, handlers: seq<Handler<C>>, err: ErrArg<C>): (r: Result<seq<Handler<C>>>)
    requires ValidHierarchy(h)
    ensures r.Err? <==> handlers != [] && ArgRaises(h, err)
    ensures r.Err? ==> r.error == TypeError
    ensures r.Ok? ==> forall x :: x in r.value <==> x in handlers && IsSubclass(h, err.cls, x.handles)
  {
    if handlers == [] then Ok([])
    else match CanHandle(h, handlers[0], err)
      case Err(e) => Err(e)
      case Ok(b) =>
        var rest := Capable(h, handlers[1..], err);
        assert forall x :: x in handlers <==> x == handlers[0] || x in handlers[1..];
        if rest.Err? then rest
        else Ok(if b then [handlers[0]] + rest.value else rest.value)
  }

  /** `len(handler.i_handle().mro())`, the sort key. */
  function MroLength<C(==,!new)>(h: Hierarchy<C>, x: Handler<C>): nat
    requires ValidHierarchy(h)
  {
    |Mro(h, x.handles)|
  }

  /** The position of `sorted(s, key=mro length)[-1]` in `s`: the stable sort puts the
      greatest key last, and of equal keys the one that came last in `s`. */
  function LastOfSortedIndex<C(==,!new)>(h: Hierarchy<C>, s: seq<Handler<C>>): (k: nat)
    requires ValidHierarchy(h) && s != []
    ensures k < |s|
    ensures forall j :: 0 <= j < |s| ==> MroLength(h, s[j]) <= MroLength(h, s[k])
    ensures forall j :: k < j < |s| ==> MroLength(h, s[j]) < MroLength(h, s[k])
  {
    if |s| == 1 then 0
    else
      var pre := s[..|s| - 1];
      var m := LastOfSortedIndex(h, pre);
      assert forall j :: 0 <= j < |s| - 1 ==> s[j] == pre[j];
      if MroLength(h, s[|s| - 1]) >= MroLength(h, s[m]) then |s| - 1 else m
  }

  /** `sorted(s, key=mro length)[-1]`. */
  function LastOfSorted<C(==,!new)>(h: Hierarchy<C>, s: seq<Handler<C>>): (r: Handler<C>)
    requires ValidHierarchy(h) && s != []
  {
    s[LastOfSortedIndex(h, s)]
  }

  /** `get_best_handler(err)`: the last of the capable handlers sorted by MRO length;
      IndexError when none is capable. */
  function GetBest<C(==,!new)>(h: Hierarchy<C>, handlers: seq<Handler<C>>, err: ErrArg<C>): (r: Result<Handler<C>>)
    requires ValidHierarchy(h)
    ensures r.Ok? ==> r.value in handlers && !err.OtherValue? && IsSubclass(h, err.cls, r.value.handles)
    ensures r.Err? ==> r.error == TypeError || r.error == IndexError
  {
    match Capable(h, handlers, err)
      case Err(e) => Err(e)
      case Ok(cs) =>
        if cs == [] then Err(IndexError)
        else
          assert forall i :: 0 <= i < |cs| ==> cs[i] in handlers;
          Ok(LastOfSorted(h, cs))
  }

  /** The check `add_handler` makes: some registered handler can handle the new class and
      its own class's MRO is at least as long. */
  predicate Rejects<C(==,!new)>(h: Hierarchy<C>, handlers: seq<Handler<C>>, t: C)
    requires ValidHierarchy(h)
    ensures Rejects(h, handlers, t) ==> exists x :: x in handlers && IsSubclass(h, t, x.handles)
  {
    var cs := Capable(h, handlers, ClassObj(t)).value;
    assert forall i :: 0 <= i < |cs| ==> cs[i] in handlers;
    cs != [] && MroLength(h, LastOfSorted(h, cs)) >= |Mro(h, t)|
  }

  /** Registered classes are pairwise distinct. */
  predicate DistinctClasses<C(==,!new)>(handlers: seq<Handler<C>>)
  {
    forall i, j :: 0 <= i < j < |handlers| ==> handlers[i].handles != handlers[j].handles
  }

  /** The check refuses a handler exactly when its class is already registered: a capable
      handler's class is a base of the new one, hence no deeper, and as deep only if it is
      the same class. */
  lemma RejectsIffRegistered<C(!new)>(h: Hierarchy<C>, handlers: seq<Handler<C>>, t: C)
    requires ValidHierarchy(h)
    ensures Rejects(h, handlers, t) <==> exists i :: 0 <= i < |handlers| && handlers[i].handles == t
  {
    var cs := Capable(h, handlers, ClassObj(t)).value;
    assert forall i :: 0 <= i < |cs| ==> cs[i] in handlers;
    if i :| 0 <= i < |handlers| && handlers[i].handles == t {
      SubclassReflexive(h, t);
      assert handlers[i] in cs;
      var k :| 0 <= k < |cs| && cs[k] == handlers[i];
      assert MroLength(h, cs[k]) == |Mro(h, t)|;
    }
    if Rejects(h, handlers, t) {
      var b := LastOfSorted(h, cs);
      assert b in cs;
      SubclassDepth(h, t, b.handles);
      assert b in handlers;
      var i :| 0 <= i < |handlers| && handlers[i] == b;
    }
  }

  /** With distinct registered classes, the chosen handler is capable and more specific
      than every other capable one: its class is a subclass of theirs. */
  lemma BestIsMostSpecific<C(!new)>(h: Hierarchy<C>, handlers: seq<Handler<C>>, err: ErrArg<C>)
    requires ValidHierarchy(h)
    requires GetBest(h, handlers, err).Ok?
    ensures var b := GetBest(h, handlers, err).value;
      b in handlers && IsSubclass(h, err.cls, b.handles)
      && forall x :: x in handlers && IsSubclass(h, err.cls, x.handles) ==> IsSubclass(h, b.handles, x.handles)
  {
    var cs := Capable(h, handlers, err).value;
    assert forall i :: 0 <= i < |cs| ==> cs[i] in handlers;
    var b := LastOfSorted(h, cs);
    assert b in cs;
    forall x | x in handlers && IsSubclass(h, err.cls, x.handles)
      ensures IsSubclass(h, b.handles, x.handles)
    {
      assert x in cs;
      var k :| 0 <= k < |cs| && cs[k] == x;
      assert MroLength(h, x) <= MroLength(h, b);
      BasesFormChain(h, err.cls, b.handles, x.handles);
    }
  }

  /** Dispatch fails with IndexError exactly when the argument is valid and no registered
      class is a base of it, and with TypeError when `can_handle` itself raises. */
  lemma GetBestFailures<C(!new)>(h: Hierarchy<C>, handlers: seq<Handler<C>>, err: ErrArg<C>)
    requires ValidHierarchy(h)
    ensures GetBest(h, handlers, err) == Err(TypeError) <==> handlers != [] && ArgRaises(h, err)
    ensures GetBest(h, handlers, err) == Err(IndexError) <==>
      (handlers == [] || !ArgRaises(h, err)) && forall x :: x in handlers ==> !err.OtherValue? && !IsSubclass(h, err.cls, x.handles)
  {
    var r := Capable(h, handlers, err);
    if r.Ok? && r.value != [] {
      var x := r.value[0];
      assert handlers != [] && !ArgRaises(h, err);
      assert !err.OtherValue?;
      assert x in handlers && IsSubclass(h, err.cls, x.handles);
    }
  }

  /** A capable handler whose class is a subclass of every capable handler's class is the
      one chosen, when registered classes are distinct. */
  lemma BestIs<C(!new)>(h: Hierarchy<C>, handlers: seq<Handler<C>>, err: ErrArg<C>, b: Handler<C>)
    requires ValidHierarchy(h) && DistinctClasses(handlers)
    requires !err.OtherValue? && !ArgRaises(h, err)
    requires b in handlers && IsSubclass(h, err.cls, b.handles)
    requires forall x :: x in handlers && IsSubclass(h, err.cls, x.handles) ==> IsSubclass(h, b.handles, x.handles)
    ensures GetBest(h, handlers, err) == Ok(b)
  {
    GetBestFailures(h, handlers, err);
    BestIsMostSpecific(h, handlers, err);
    var c := GetBest(h, handlers, err).value;
    SubclassDepth(h, b.handles, c.handles);
    SubclassDepth(h, c.handles, b.handles);
    var i :| 0 <= i < |handlers| && handlers[i] == b;
    var j :| 0 <= j < |handlers| && handlers[j] == c;
    assert i == j;
  }

  /** One turn of the setup loop: a failing `add_handler` is logged and skipped. */
  function Register<C(==,!new)>(h: Hierarchy<C>, handlers: seq<Handler<C>>, c: Candidate<C>): seq<Handler<C>>
    requires ValidHierarchy(h)
  {
    if c.NotAHandler? || Rejects(h, handlers, c.handler.handles) then handlers
    else handlers + [c.handler]
  }

  /** The registry after the setup loop has offered `cs[..k]`. */
  function RegisterUpTo<C(==,!new)>(h: Hierarchy<C>, handlers: seq<Handler<C>>, cs: seq<Candidate<C>>, k: nat): (r: seq<Handler<C>>)
    requires ValidHierarchy(h) && k <= |cs|
  {
    if k == 0 then handlers
    else Register(h, RegisterUpTo(h, handlers, cs, k - 1), cs[k - 1])
  }

  /** The handlers a candidate list offers, in order. */
  function Offered<C(==,!new)>(cs: seq<Candidate<C>>): (r: seq<Handler<C>>)
  {
    if cs == [] then []
    else (if cs[|cs| - 1].IsHandler? then Offered(cs[..|cs| - 1]) + [cs[|cs| - 1].handler] else Offered(cs[..|cs| - 1]))
  }

  /** The candidates `setup` offers when every class it finds is a handler. */
  function Offer<C(==,!new)>(hs: seq<Handler<C>>): (r: seq<Candidate<C>>)
    ensures |r| == |hs| && forall i :: 0 <= i < |hs| ==> r[i] == IsHandler(hs[i])
  {
    if hs == [] then [] else Offer(hs[..|hs| - 1]) + [IsHandler(hs[|hs| - 1])]
  }

  lemma {:induction false} OfferedOffer<C(!new)>(hs: seq<Handler<C>>)
    ensures Offered(Offer(hs)) == hs
  {
    if hs != [] {
      var cs := Offer(hs);
      assert cs[..|cs| - 1] == Offer(hs[..|hs| - 1]);
      OfferedOffer(hs[..|hs| - 1]);
    }
  }

  /** A handler whose class is not yet registered is accepted. */
  lemma RegisterNew<C(!new)>(h: Hierarchy<C>, before: seq<Handler<C>>, x: Handler<C>)
    requires ValidHierarchy(h)
    requires forall i :: 0 <= i < |before| ==> before[i].handles != x.handles
    ensures Register(h, before, IsHandler(x)) == before + [x]
  {
    RejectsIffRegistered(h, before, x.handles);
  }

  /** In a list of distinct classes, an entry's class differs from every class before it. */
  lemma DistinctBefore<C(!new)>(all: seq<Handler<C>>, before: seq<Handler<C>>, x: Handler<C>)
    requires DistinctClasses(all) && before + [x] <= all
    ensures forall i :: 0 <= i < |before| ==> before[i].handles != x.handles
  {
    forall i | 0 <= i < |before|
      ensures before[i].handles != x.handles
    {
      assert all[i] == before[i] && all[|before|] == x;
    }
  }

  /** When the offered classes are distinct and new, setup registers every offered handler
      in order. */
  lemma {:induction false} RegisterAllAccepted<C(!new)>(h: Hierarchy<C>, handlers: seq<Handler<C>>, cs: seq<Candidate<C>>, k: nat)
    requires ValidHierarchy(h) && k <= |cs|
    requires DistinctClasses(handlers + Offered(cs))
    ensures RegisterUpTo(h, handlers, cs, k) == handlers + Offered(cs[..k])
  {
    if k > 0 {
      assert cs[..k][..k - 1] == cs[..k - 1];
      RegisterAllAccepted(h, handlers, cs, k - 1);
      var before := RegisterUpTo(h, handlers, cs, k - 1);
      var c := cs[k - 1];
      if c.IsHandler? {
        OfferedPrefix(cs, k);
        DistinctBefore(handlers + Offered(cs), before, c.handler);
        RegisterNew(h, before, c.handler);
      }
    }
  }

  /** What `cs[..k]` offers is a prefix of what `cs` offers, and the k-th candidate, when a
      handler, comes right after it. */
  lemma {:induction false} OfferedPrefix<C(!new)>(cs: seq<Candidate<C>>, k: nat)
    requires k <= |cs|
    ensures Offered(cs[..k]) <= Offered(cs)
    ensures 0 < k && cs[k - 1].IsHandler? ==> Offered(cs[..k - 1]) + [cs[k - 1].handler] <= Offered(cs)
    decreases |cs|
  {
    if k < |cs| {
      assert cs[..|cs| - 1][..k] == cs[..k];
      OfferedPrefix(cs[..|cs| - 1], k);
      assert Offered(cs[..|cs| - 1]) <= Offered(cs);
      if 0 < k {
        assert cs[..|cs| - 1][..k - 1] == cs[..k - 1];
      }
    } else {
      assert cs[..k] == cs;
      if 0 < k && cs[k - 1].IsHandler? {
        assert cs[..k - 1] == cs[..|cs| - 1];
      }
    }
  }

  // ---------------------------------------------------------------------------
  // The cog
  // ---------------------------------------------------------------------------

  /** An error cog: the class hierarchy it sees and the registered handlers in order. */
  class ErrorCog<C(==,!new)> {
    const h: Hierarchy<C>
    var handlers: seq<Handler<C>>

    ghost predicate Valid()
      reads this
    {
      ValidHierarchy(h) && DistinctClasses(handlers)
    }

    constructor (h: Hierarchy<C>)
      requires ValidHierarchy(h)
      ensures Valid() && this.h == h && handlers == []
    {
      this.h := h;
      handlers := [];
    }

    /** `add_handler`: TypeError for a non-handler, ValueError when refused, else append. */
    method AddHandler(c: Candidate<C>) returns (outcome: Outcome)
      requires Valid()
      modifies this
      ensures Valid()
      ensures c.NotAHandler? ==> outcome == Raised(TypeError) && handlers == old(handlers)
      ensures c.IsHandler? ==>
        (outcome == Raised(ValueError) <==> exists i :: 0 <= i < |old(handlers)| && old(handlers)[i].handles == c.handler.handles)
      ensures handlers == Register(h, old(handlers), c)
      ensures outcome == Done <==> c.IsHandler? && handlers == old(handlers) + [c.handler]
    {
      if c.NotAHandler? {
        return Raised(TypeError);
      }
      var t := c.handler.handles;
      var ss := Capable(h, handlers, ClassObj(t)).value;
      assert forall i :: 0 <= i < |ss| ==> ss[i] in handlers;
      RejectsIffRegistered(h, handlers, t);
      if ss != [] && MroLength(h, LastOfSorted(h, ss)) >= |Mro(h, t)| {
        return Raised(ValueError);
      }
      handlers := handlers + [c.handler];
      return Done;
    }

    /** `get_best_handler(err)`. */
    function GetBestHandler(err: ErrArg<C>): (r: Result<Handler<C>>)
      reads this
      requires Valid()
      ensures r.Ok? ==> !err.OtherValue? && r.value in handlers && IsSubclass(h, err.cls, r.value.handles)
      ensures r.Ok? ==> !err.OtherValue? && forall x :: x in handlers && IsSubclass(h, err.cls, x.handles) ==> IsSubclass(h, r.value.handles, x.handles)
      ensures r == Err(IndexError) <==> (handlers == [] || !ArgRaises(h, err)) && forall x :: x in handlers ==> !err.OtherValue? && !IsSubclass(h, err.cls, x.handles)
      ensures r == Err(TypeError) <==> handlers != [] && ArgRaises(h, err)
    {
      GetBestFailures(h, handlers, err);
      var r := GetBest(h, handlers, err);
      if r.Ok? then
        BestIsMostSpecific(h, handlers, err);
        r
      else r
    }

    /** The `setup` loop: offer each candidate; a refused one is logged and skipped. */
    method RegisterAll(cs: seq<Candidate<C>>)
      requires Valid()
      modifies this
      ensures Valid()
      ensures handlers == RegisterUpTo(h, old(handlers), cs, |cs|)
    {
      var n := 0;
      while n < |cs|
        invariant 0 <= n <= |cs| && Valid()
        invariant handlers == RegisterUpTo(h, old(handlers), cs, n)
      {
        var _ := AddHandler(cs[n]);
        n := n + 1;
      }
    }
  }
}
