/** The slash-command error cog: the discord.py app-command error classes it dispatches on,
    its three handlers in the order the module defines them, and its setup. */
module AppErrors {
  import opened Common
  import opened ErrorDispatch

  /** The classes involved: Python's roots, the cog's own `UnhandledError`, and the
      discord.py app-command errors (`app_commands.` omitted). */
  datatype Class =
    | Object | BaseException | KeyboardInterrupt | Exception | UnhandledError
    | DiscordException | AppCommandError | CommandInvokeError | TransformerError
    | CheckFailure | CommandNotFound | NoPrivateMessage | MissingPermissions | CommandOnCooldown

  /** Each class's base, as discord.py defines it; a cooldown is a check failure there. */
  function Base(c: Class): Option<Class>
  {
    match c
      case Object => None
      case BaseException => Some(Object)
      case KeyboardInterrupt | Exception => Some(BaseException)
      case UnhandledError | DiscordException => Some(Exception)
      case AppCommandError => Some(DiscordException)
      case CommandInvokeError | TransformerError | CheckFailure | CommandNotFound => Some(AppCommandError)
      case NoPrivateMessage | MissingPermissions | CommandOnCooldown => Some(CheckFailure)
  }

  /** Each class's distance from `object`. */
  function Depth(c: Class): nat
  {
    match c
      case Object => 0
      case BaseException => 1
      case KeyboardInterrupt | Exception => 2
      case UnhandledError | DiscordException => 3
      case AppCommandError => 4
      case CommandInvokeError | TransformerError | CheckFailure | CommandNotFound => 5
      case NoPrivateMessage | MissingPermissions | CommandOnCooldown => 6
  }

  function Classes(): Hierarchy<Class>
  {
    Hierarchy(Base, Depth, Exception)
  }

  const AnyHandler: Handler<Class> := Handler("AnyHandler", AppCommandError)
  const CheckFailureHandler: Handler<Class> := Handler("CheckFailureHandler", CheckFailure)
  const InvokeHandler: Handler<Class> := Handler("InvokeHandler", CommandInvokeError)

  /** The `HandlerMeta` subclasses of the module, in definition order. */
  function Handlers(): seq<Handler<Class>>
  {
    [AnyHandler, CheckFailureHandler, InvokeHandler]
  }

  lemma HierarchyValid()
    ensures ValidHierarchy(Classes())
  {
    forall c: Class
      ensures (Base(c).Some? <==> Depth(c) > 0) && (Base(c).Some? ==> Depth(Base(c).value) + 1 == Depth(c))
    {
      BaseIsOneUp(c);
    }
  }

  lemma HandlersDistinct()
    ensures DistinctClasses(Handlers())
  {
  }

  /** The catch-all's class sits one level above the specific handlers' classes. */
  lemma HandlerDepth(x: Handler<Class>)
    requires x in Handlers()
    ensures Depth(x.handles) == if x == AnyHandler then 4 else 5
  {
  }

  lemma BaseIsOneUp(c: Class)
    ensures Base(c).Some? <==> Depth(c) > 0
    ensures Base(c).Some? ==> Depth(Base(c).value) + 1 == Depth(c)
  {
    match c
    case _ =>
  }

  /** `setup`: the three handler classes are offered in turn and all are registered. */
  method Setup() returns (cog: ErrorCog<Class>)
    ensures fresh(cog) && cog.Valid() && cog.h == Classes() && cog.handlers == Handlers()
  {
    HierarchyValid();
    HandlersDistinct();
    cog := new ErrorCog(Classes());
    var cs := Offer(Handlers());
    OfferedOffer(Handlers());
    RegisterAllAccepted(Classes(), [], cs, |cs|);
    assert cs[..|cs|] == cs;
    cog.RegisterAll(cs);
  }

  /** Every class from `AppCommandError` down is an `AppCommandError` and an `Exception`. */
  lemma {:induction false} UnderAppCommandError(c: Class)
    requires Depth(c) >= 4
    ensures ValidHierarchy(Classes())
    ensures IsSubclass(Classes(), c, AppCommandError) && IsSubclass(Classes(), c, Exception)
    decreases Depth(c)
  {
    var h := Classes();
    HierarchyValid();
    SubclassStep(h, c, AppCommandError);
    SubclassStep(h, c, Exception);
    if c == AppCommandError {
      SubclassStep(h, DiscordException, Exception);
    } else {
      UnderAppCommandError(Base(c).value);
    }
  }

  /** An app-command error below the check-failure or the invoke handler's class goes to
      that handler rather than the catch-all. */
  lemma DispatchSpecific(c: Class, b: Handler<Class>)
    requires b in Handlers() && b != AnyHandler && Depth(c) >= 4
    requires ValidHierarchy(Classes()) && IsSubclass(Classes(), c, b.handles)
    ensures GetBest(Classes(), Handlers(), Instance(c)) == Ok(b)
  {
    var h := Classes();
    HierarchyValid();
    HandlerDepth(b);
    UnderAppCommandError(c);
    UnderAppCommandError(b.handles);
    forall x | x in Handlers() && IsSubclass(h, c, x.handles)
      ensures IsSubclass(h, b.handles, x.handles)
    {
      if x != AnyHandler {
        HandlerDepth(x);
        SameDepthBases(h, c, x.handles, b.handles);
      }
    }
    HandlersDistinct();
    BestIs(h, Handlers(), Instance(c), b);
  }

  /** A cooldown is a check failure, so the check-failure handler answers it. */
  lemma DispatchCooldown()
    ensures ValidHierarchy(Classes())
    ensures GetBest(Classes(), Handlers(), Instance(CommandOnCooldown)) == Ok(CheckFailureHandler)
  {
    HierarchyValid();
    SubclassStep(Classes(), CommandOnCooldown, CheckFailure);
    DispatchSpecific(CommandOnCooldown, CheckFailureHandler);
  }

  /** A transformer error has no specific handler and falls to the catch-all. */
  lemma DispatchTransformer()
    ensures ValidHierarchy(Classes())
    ensures GetBest(Classes(), Handlers(), Instance(TransformerError)) == Ok(AnyHandler)
  {
    var h := Classes();
    HierarchyValid();
    UnderAppCommandError(TransformerError);
    forall x | x in Handlers() && x != AnyHandler
      ensures !IsSubclass(h, TransformerError, x.handles)
    {
      HandlerDepth(x);
      if IsSubclass(h, TransformerError, x.handles) {
        SubclassDepth(h, TransformerError, x.handles);
      }
    }
    HandlersDistinct();
    BestIs(h, Handlers(), Instance(TransformerError), AnyHandler);
  }

  /** An exception outside `AppCommandError` has no handler: IndexError. */
  lemma DispatchUnhandled()
    ensures ValidHierarchy(Classes())
    ensures GetBest(Classes(), Handlers(), Instance(UnhandledError)) == Err(IndexError)
  {
    var h := Classes();
    HierarchyValid();
    SubclassStep(h, UnhandledError, Exception);
    forall x | x in Handlers()
      ensures !IsSubclass(h, UnhandledError, x.handles)
    {
      HandlerDepth(x);
      if IsSubclass(h, UnhandledError, x.handles) {
        SubclassDepth(h, UnhandledError, x.handles);
      }
    }
    GetBestFailures(h, Handlers(), Instance(UnhandledError));
  }

  /** Registering a second catch-all is refused with ValueError. */
  lemma SecondAnyHandlerRefused()
    ensures ValidHierarchy(Classes())
    ensures Rejects(Classes(), Handlers(), AppCommandError)
  {
    HierarchyValid();
    RejectsIffRegistered(Classes(), Handlers(), AppCommandError);
    assert Handlers()[0].handles == AppCommandError;
  }
}
