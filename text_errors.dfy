/** The prefix-command error cog: the discord.py command-error classes it dispatches on,
    its seven handlers in the order the module defines them, and its setup. */
module TextErrors {
  import opened Common
  import opened ErrorDispatch

  /** The classes involved: Python's roots, the cog's own `UnhandledError`, and the
      discord.py command errors (`commands.` omitted). */
  datatype Class =
    | Object | BaseException | KeyboardInterrupt | Exception | UnhandledError
    | DiscordException | CommandError | ConversionError | UserInputError | CheckFailure
    | CommandNotFound | CommandInvokeError | CommandOnCooldown | MaxConcurrencyReached
    | BadArgument | NotOwner | MemberNotFound

  /** Each class's base, as discord.py defines it. */
  function Base(c: Class): Option<Class>
  {
    match c
      case Object => None
      case BaseException => Some(Object)
      case KeyboardInterrupt | Exception => Some(BaseException)
      case UnhandledError | DiscordException => Some(Exception)
      case CommandError => Some(DiscordException)
      case ConversionError | UserInputError | CheckFailure | CommandNotFound
        | CommandInvokeError | CommandOnCooldown | MaxConcurrencyReached => Some(CommandError)
      case BadArgument => Some(UserInputError)
      case NotOwner => Some(CheckFailure)
      case MemberNotFound => Some(BadArgument)
  }

  /** Each class's distance from `object`. */
  function Depth(c: Class): nat
  {
    match c
      case Object => 0
      case BaseException => 1
      case KeyboardInterrupt | Exception => 2
      case UnhandledError | DiscordException => 3
      case CommandError => 4
      case ConversionError | UserInputError | CheckFailure | CommandNotFound
        | CommandInvokeError | CommandOnCooldown | MaxConcurrencyReached => 5
      case BadArgument | NotOwner => 6
      case MemberNotFound => 7
  }

  function Classes(): Hierarchy<Class>
  {
    Hierarchy(Base, Depth, Exception)
  }

  const AnyHandler: Handler<Class> := Handler("AnyHandler", CommandError)
  const InvokeHandler: Handler<Class> := Handler("InvokeHandler", CommandInvokeError)
  const NotFoundHandler: Handler<Class> := Handler("NotFoundHandler", CommandNotFound)
  const CheckFailureHandler: Handler<Class> := Handler("CheckFailureHandler", CheckFailure)
  const BadInputHandler: Handler<Class> := Handler("BadInputHandler", UserInputError)
  const ConversionHandler: Handler<Class> := Handler("ConversionHandler", ConversionError)
  const CooldownHandler: Handler<Class> := Handler("CooldownHandler", CommandOnCooldown)

  /** The `HandlerMeta` subclasses of the module, in definition order. */
  function Handlers(): seq<Handler<Class>>
  {
    [AnyHandler, InvokeHandler, NotFoundHandler, CheckFailureHandler, BadInputHandler, ConversionHandler, CooldownHandler]
  }

  lemma HierarchyValid()
    ensures ValidHierarchy(Classes())
  {
    forall c: Class
      ensures (Base(c).Some? <==> Depth(c) > 0) && (Base(c).Some? ==> Depth(Base(c).value) + 1 == Depth(c))
    {
      BaseIsOneUp(c);
    }
  }

  lemma HandlersDistinct()
    ensures DistinctClasses(Handlers())
  {
  }

  /** The catch-all's class sits one level above the specific handlers' classes. */
  lemma HandlerDepth(x: Handler<Class>)
    requires x in Handlers()
    ensures Depth(x.handles) == if x == AnyHandler then 4 else 5
  {
  }

  lemma BaseIsOneUp(c: Class)
    ensures Base(c).Some? <==> Depth(c) > 0
    ensures Base(c).Some? ==> Depth(Base(c).value) + 1 == Depth(c)
  {
    match c
    case _ =>
  }

  /** `setup`: every handler class of the module is offered in turn, and all seven are
      registered, since their classes are distinct. */
  method Setup() returns (cog: ErrorCog<Class>)
    ensures fresh(cog) && cog.Valid() && cog.h == Classes() && cog.handlers == Handlers()
  {
    HierarchyValid();
    HandlersDistinct();
    cog := new ErrorCog(Classes());
    var cs := Offer(Handlers());
    OfferedOffer(Handlers());
    RegisterAllAccepted(Classes(), [], cs, |cs|);
    assert cs[..|cs|] == cs;
    cog.RegisterAll(cs);
  }

  /** Every class from `CommandError` down is a `CommandError` and an `Exception`. */
  lemma {:induction false} UnderCommandError(c: Class)
    requires Depth(c) >= 4
    ensures ValidHierarchy(Classes())
    ensures IsSubclass(Classes(), c, CommandError) && IsSubclass(Classes(), c, Exception)
    decreases Depth(c)
  {
    var h := Classes();
    HierarchyValid();
    SubclassStep(h, c, CommandError);
    SubclassStep(h, c, Exception);
    if c == CommandError {
      SubclassStep(h, DiscordException, Exception);
    } else {
      UnderCommandError(Base(c).value);
    }
  }

  /** A command error below one of the six specific handlers' classes goes to that handler,
      not to the catch-all: the six classes are siblings, so at most one is its base. */
  lemma DispatchSpecific(c: Class, b: Handler<Class>)
    requires b in Handlers() && b != AnyHandler && Depth(c) >= 4
    requires ValidHierarchy(Classes()) && IsSubclass(Classes(), c, b.handles)
    ensures GetBest(Classes(), Handlers(), Instance(c)) == Ok(b)
  {
    var h := Classes();
    HierarchyValid();
    HandlerDepth(b);
    UnderCommandError(c);
    UnderCommandError(b.handles);
    forall x | x in Handlers() && IsSubclass(h, c, x.handles)
      ensures IsSubclass(h, b.handles, x.handles)
    {
      if x != AnyHandler {
        HandlerDepth(x);
        SameDepthBases(h, c, x.handles, b.handles);
      }
    }
    HandlersDistinct();
    BestIs(h, Handlers(), Instance(c), b);
  }

  /** A command error below none of the six specific classes goes to the catch-all. */
  lemma DispatchFallback(c: Class)
    requires Depth(c) >= 4 && ValidHierarchy(Classes())
    requires forall x :: x in Handlers() && x != AnyHandler ==> !IsSubclass(Classes(), c, x.handles)
    ensures GetBest(Classes(), Handlers(), Instance(c)) == Ok(AnyHandler)
  {
    HierarchyValid();
    UnderCommandError(c);
    HandlersDistinct();
    BestIs(Classes(), Handlers(), Instance(c), AnyHandler);
  }

  /** A member-conversion failure goes to the bad-input handler, two levels up. */
  lemma DispatchMemberNotFound()
    ensures ValidHierarchy(Classes())
    ensures GetBest(Classes(), Handlers(), Instance(MemberNotFound)) == Ok(BadInputHandler)
  {
    var h := Classes();
    HierarchyValid();
    assert h.parent(MemberNotFound) == Some(BadArgument) && h.parent(BadArgument) == Some(UserInputError);
    SubclassReflexive(h, UserInputError);
    SubclassStep(h, BadArgument, UserInputError);
    SubclassStep(h, MemberNotFound, UserInputError);
    DispatchSpecific(MemberNotFound, BadInputHandler);
  }

  /** A missing-owner check goes to the check-failure handler. */
  lemma DispatchNotOwner()
    ensures ValidHierarchy(Classes())
    ensures GetBest(Classes(), Handlers(), Instance(NotOwner)) == Ok(CheckFailureHandler)
  {
    HierarchyValid();
    SubclassStep(Classes(), NotOwner, CheckFailure);
    DispatchSpecific(NotOwner, CheckFailureHandler);
  }

  /** An error no specific handler covers falls to the catch-all. */
  lemma DispatchMaxConcurrency()
    ensures ValidHierarchy(Classes())
    ensures GetBest(Classes(), Handlers(), Instance(MaxConcurrencyReached)) == Ok(AnyHandler)
  {
    var h := Classes();
    HierarchyValid();
    forall x | x in Handlers() && x != AnyHandler
      ensures !IsSubclass(h, MaxConcurrencyReached, x.handles)
    {
      HandlerDepth(x);
      if IsSubclass(h, MaxConcurrencyReached, x.handles) {
        SubclassDepth(h, MaxConcurrencyReached, x.handles);
      }
    }
    DispatchFallback(MaxConcurrencyReached);
  }

  /** An instance that is not an `Exception` makes `can_handle` call `issubclass` on an
      instance, which raises TypeError. */
  lemma DispatchNonException()
    ensures ValidHierarchy(Classes())
    ensures GetBest(Classes(), Handlers(), Instance(KeyboardInterrupt)) == Err(TypeError)
  {
    var h := Classes();
    HierarchyValid();
    if IsSubclass(h, KeyboardInterrupt, Exception) {
      SubclassDepth(h, KeyboardInterrupt, Exception);
    }
    assert ArgRaises(h, Instance(KeyboardInterrupt));
    GetBestFailures(h, Handlers(), Instance(KeyboardInterrupt));
    assert Handlers() != [];
  }

  /** An exception outside `CommandError` has no handler: IndexError. */
  lemma DispatchUnhandled()
    ensures ValidHierarchy(Classes())
    ensures GetBest(Classes(), Handlers(), Instance(UnhandledError)) == Err(IndexError)
  {
    var h := Classes();
    HierarchyValid();
    SubclassStep(h, UnhandledError, Exception);
    forall x | x in Handlers()
      ensures !IsSubclass(h, UnhandledError, x.handles)
    {
      HandlerDepth(x);
      if IsSubclass(h, UnhandledError, x.handles) {
        SubclassDepth(h, UnhandledError, x.handles);
      }
    }
    GetBestFailures(h, Handlers(), Instance(UnhandledError));
  }
}
