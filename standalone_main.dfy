/**
  The standalone loop of main.go: it answers "/start" with the greeting and
  ignores everything else. Its `getUserName` and `formatGreeting` are the
  same as the handler's and are taken from the StartHandler module.
 */
module StandaloneMain {
  import opened Wrappers
  import opened Effects
  import Telegram
  import StartHandler

  /** The source reads the sender of every "/start" message. */
  predicate StartsHaveSenders(updates: seq<Telegram.Update>)
  {
    forall i | 0 <= i < |updates| && StartHandler.CanHandle(updates[i]) :: updates[i].message.value.from.Some?
  }

  /** The reply the loop owes one update: a greeting for "/start", nothing otherwise. */
  function ReplyTo(update: Telegram.Update): seq<Effect>
    requires StartHandler.CanHandle(update) ==> update.message.value.from.Some?
  {
    if StartHandler.CanHandle(update)
    then [SendMessage(update.message.value.chatId, StartHandler.GreetingFor(update.message.value))]
    else []
  }

  /** The replies owed to a stream of updates, in order. */
  function Replies(updates: seq<Telegram.Update>): seq<Effect>
    requires StartsHaveSenders(updates)
  {
    if updates == [] then []
    else Replies(updates[..|updates| - 1]) + ReplyTo(updates[|updates| - 1])
  }

  /** Number of "/start" updates in the stream. */
  function StartCount(updates: seq<Telegram.Update>): nat
  {
    if updates == [] then 0
    else StartCount(updates[..|updates| - 1]) + (if StartHandler.CanHandle(updates[|updates| - 1]) then 1 else 0)
  }

  /** `main`'s update loop over a finite stream. */
  method MainLoop(updates: seq<Telegram.Update>) returns (replies: seq<Effect>)
    requires StartsHaveSenders(updates)
    ensures replies == Replies(updates)
  {
    replies := [];
    for i := 0 to |updates|
      invariant replies == Replies(updates[..i])
    {
      assert updates[..i + 1][..i] == updates[..i];
      var update := updates[i];
      if update.message.None? {
        continue;
      }
      var msg := update.message.value;
      if msg.command == Some(StartHandler.StartCommand) {
        var userName := StartHandler.GetUserName(msg.from.value.firstName, msg.from.value.userName);
        var greeting := StartHandler.FormatGreeting(userName);
        replies := replies + [SendMessage(msg.chatId, greeting)];
      }
    }
    assert updates[..|updates|] == updates;
  }

  /** Exactly one reply per "/start" update, each a greeting. */
  lemma {:induction false} OneReplyPerStart(updates: seq<Telegram.Update>)
    requires StartsHaveSenders(updates)
    ensures |Replies(updates)| == StartCount(updates) <= |updates|
    ensures forall k | 0 <= k < |Replies(updates)| ::
      Replies(updates)[k].SendMessage? && StartHandler.NameInGreeting(Replies(updates)[k].text).Some?
  {
    if updates != [] {
      var init := updates[..|updates| - 1];
      var last := updates[|updates| - 1];
      OneReplyPerStart(init);
      if StartHandler.CanHandle(last) {
        StartHandler.GreetingRoundTrip(StartHandler.GetUserName(last.message.value.from.value.firstName,
          last.message.value.from.value.userName), []);
      }
    }
  }

  /** Updates without a message, or with another text or command, get no reply. */
  lemma {:induction false} IgnoredUpdates(updates: seq<Telegram.Update>)
    requires forall i | 0 <= i < |updates| :: !StartHandler.CanHandle(updates[i])
    ensures Replies(updates) == []
  {
    if updates != [] {
      IgnoredUpdates(updates[..|updates| - 1]);
    }
  }

  /** The replies to two streams in a row are the replies to each, in order. */
  lemma {:induction false} RepliesAppend(a: seq<Telegram.Update>, b: seq<Telegram.Update>)
    requires StartsHaveSenders(a) && StartsHaveSenders(b)
    ensures StartsHaveSenders(a + b)
    ensures Replies(a + b) == Replies(a) + Replies(b)
    decreases |b|
  {
    if b != [] {
      var init := b[..|b| - 1];
      assert (a + b)[..|a + b| - 1] == a + init;
      RepliesAppend(a, init);
    } else {
      assert a + b == a;
    }
  }
}
