/**
  The dispatcher of internal/bot/bot.go: handlers are consulted in
  registration order and the first that accepts an update gets it.
 */
module Bot {
  import opened Wrappers
  import Telegram
  import StartHandler
  import YouTubeHandler

  /** The handlers the program registers; the interface is closed over them. */
  datatype HandlerKind = Start | YouTube

  /** `CanHandle` of each handler. */
  predicate Accepts(k: HandlerKind, update: Telegram.Update)
  {
    match k
    case Start => StartHandler.CanHandle(update)
    case YouTube => YouTubeHandler.CanHandle(update)
  }

  /** What `Run` does with one update: drop it, start the handler at a position, or find none. */
  datatype Decision = Skipped | Delegated(index: nat, handler: HandlerKind) | Unhandled

  /** Position of the first handler that accepts the update. */
  function FirstAccepting(handlers: seq<HandlerKind>, update: Telegram.Update): (r: Option<nat>)
    ensures r.Some? ==>
      r.value < |handlers| && Accepts(handlers[r.value], update) &&
      (forall j | 0 <= j < r.value :: !Accepts(handlers[j], update))
    ensures r.None? ==> forall j | 0 <= j < |handlers| :: !Accepts(handlers[j], update)
  {
    if handlers == [] then None
    else if Accepts(handlers[0], update) then Some(0)
    else match FirstAccepting(handlers[1..], update)
      case None => None
      case Some(i) => Some(i + 1)
  }

  /** An update with neither a message nor a callback is skipped before any handler is asked. */
  predicate Empty(update: Telegram.Update)
  {
    update.message.None? && update.callbackQuery.None?
  }

  function DecisionFor(handlers: seq<HandlerKind>, update: Telegram.Update): Decision
  {
    if Empty(update) then Skipped
    else match FirstAccepting(handlers, update)
      case Some(i) => Delegated(i, handlers[i])
      case None => Unhandled
  }

  /**
    Adding a handler at the end never takes an update away from an earlier
    one, and only gives the newcomer updates nobody accepted.
   */
  lemma {:induction false} RegisterKeepsEarlierChoices(handlers: seq<HandlerKind>, k: HandlerKind, update: Telegram.Update)
    ensures DecisionFor(handlers, update).Delegated? ==> DecisionFor(handlers + [k], update) == DecisionFor(handlers, update)
    ensures DecisionFor(handlers, update) == Unhandled ==>
      DecisionFor(handlers + [k], update) == (if Accepts(k, update) then Delegated(|handlers|, k) else Unhandled)
    ensures DecisionFor(handlers, update) == Skipped <==> DecisionFor(handlers + [k], update) == Skipped
  {
    if !Empty(update) {
      FirstAcceptingAppend(handlers, k, update);
    }
  }

  lemma {:induction false} FirstAcceptingAppend(handlers: seq<HandlerKind>, k: HandlerKind, update: Telegram.Update)
    ensures FirstAccepting(handlers + [k], update) ==
      (if FirstAccepting(handlers, update).Some? then FirstAccepting(handlers, update)
       else if Accepts(k, update) then Some(|handlers|) else None)
  {
    var hs := handlers + [k];
    if handlers != [] {
      assert hs[0] == handlers[0];
      assert hs[1..] == handlers[1..] + [k];
      FirstAcceptingAppend(handlers[1..], k, update);
    } else {
      assert hs[1..] == [];
    }
  }

  /**
    The program registers Start and then YouTube. A "/start" message goes to
    Start even when it also holds a YouTube link; YouTube gets links and its
    own callbacks; anything else non-empty is unhandled.
   */
  lemma ProgramWiring(update: Telegram.Update)
    ensures !Empty(update) && StartHandler.CanHandle(update) ==> DecisionFor([Start, YouTube], update) == Delegated(0, Start)
    ensures !StartHandler.CanHandle(update) && YouTubeHandler.CanHandle(update) ==>
      DecisionFor([Start, YouTube], update) == Delegated(1, YouTube)
    ensures !Empty(update) && !StartHandler.CanHandle(update) && !YouTubeHandler.CanHandle(update) ==>
      DecisionFor([Start, YouTube], update) == Unhandled
  {
    assert [Start, YouTube][1..] == [YouTube];
    assert [YouTube][1..] == [];
    if !StartHandler.CanHandle(update) && YouTubeHandler.CanHandle(update) {
      assert !Empty(update);
      assert FirstAccepting([YouTube], update) == Some(0);
    }
  }

  class Bot {
    var handlers: seq<HandlerKind>

    /** `New`: a bot with no handlers. */
    constructor ()
      ensures handlers == []
    {
      handlers := [];
    }

    /** `RegisterHandler`: appends; earlier handlers keep their positions. */
    method RegisterHandler(h: HandlerKind)
      modifies this
      ensures handlers == old(handlers) + [h]
      ensures |handlers| == |old(handlers)| + 1 && handlers[|handlers| - 1] == h
      ensures forall i | 0 <= i < |old(handlers)| :: handlers[i] == old(handlers)[i]
    {
      handlers := handlers + [h];
    }

    /**
      `Run` over a finite stream of updates: one decision per update. The
      source logs the sender's names of every message before deciding, so
      each message must carry a sender.
     */
    method Run(updates: seq<Telegram.Update>) returns (decisions: seq<Decision>)
      requires forall i | 0 <= i < |updates| && updates[i].message.Some? :: updates[i].message.value.from.Some?
      ensures |decisions| == |updates|
      ensures forall i | 0 <= i < |updates| :: decisions[i] == DecisionFor(handlers, updates[i])
      ensures forall i | 0 <= i < |updates| :: decisions[i] == Skipped <==> Empty(updates[i])
      ensures forall i | 0 <= i < |updates| && decisions[i].Delegated? ::
        decisions[i].index < |handlers| && decisions[i].handler == handlers[decisions[i].index] &&
        Accepts(handlers[decisions[i].index], updates[i]) &&
        forall j | 0 <= j < decisions[i].index :: !Accepts(handlers[j], updates[i])
      ensures forall i | 0 <= i < |updates| && decisions[i] == Unhandled ::
        forall j | 0 <= j < |handlers| :: !Accepts(handlers[j], updates[i])
    {
      decisions := [];
      for u := 0 to |updates|
        invariant |decisions| == u
        invariant forall i | 0 <= i < u :: decisions[i] == DecisionFor(handlers, updates[i])
      {
        var update := updates[u];
        if Empty(update) {
          decisions := decisions + [Skipped];
          continue;
        }
        var handled := false;
        var chosen := 0;
        var i := 0;
        while i < |handlers|
          invariant 0 <= i <= |handlers|
          invariant !handled ==> forall j | 0 <= j < i :: !Accepts(handlers[j], update)
          invariant handled ==> chosen < |handlers| && FirstAccepting(handlers, update) == Some(chosen)
          decreases |handlers| - i, if handled then 0 else 1
        {
          if Accepts(handlers[i], update) {
            // the source starts the handler in its own goroutine here
            chosen, handled := i, true;
            break;
          }
          i := i + 1;
        }
        if handled {
          decisions := decisions + [Delegated(chosen, handlers[chosen])];
        } else {
          decisions := decisions + [Unhandled];
        }
      }
    }
  }
}
