/**
  The /start handler of internal/handler/start.go: the greeting text, the
  acceptance predicate, and the store-then-reply sequence of `Handle`.
 */
module StartHandler {
  import opened Wrappers
  import opened Bytes
  import opened Effects
  import Telegram
  import UserRepository
  import StatsRepository
  import Models

  const StartCommand: Str := [115, 116, 97, 114, 116]   // "start"
  /** "Привет, " */
  const GreetingPrefix: Str := [208, 159, 209, 128, 208, 184, 208, 178, 208, 181, 209, 130, 44, 32]
  /** "! Рад тебя видеть! 👋" */
  const GreetingSuffix: Str := [33, 32, 208, 160, 208, 176, 208, 180, 32, 209, 130, 208, 181, 208, 177, 209, 143, 32,
    208, 178, 208, 184, 208, 180, 208, 181, 209, 130, 209, 140, 33, 32, 240, 159, 145, 139]

  /** `getUserName`: the first name when there is one, else the username (possibly empty). */
  function GetUserName(firstName: Str, userName: Str): (name: Str)
    ensures firstName != [] ==> name == firstName
    ensures firstName == [] ==> name == userName
    ensures name == [] <==> firstName == [] && userName == []
  {
    if firstName != [] then firstName else userName
  }

  /** `formatGreeting` */
  function FormatGreeting(userName: Str): (greeting: Str)
    ensures |greeting| == |GreetingPrefix| + |userName| + |GreetingSuffix|
  {
    GreetingPrefix + userName + GreetingSuffix
  }

  /** The name inside a greeting, when the text has the greeting's fixed frame. */
  function NameInGreeting(text: Str): Option<Str>
  {
    if |text| >= |GreetingPrefix| + |GreetingSuffix| && text[..|GreetingPrefix|] == GreetingPrefix &&
       text[|text| - |GreetingSuffix|..] == GreetingSuffix
    then Some(text[|GreetingPrefix|..|text| - |GreetingSuffix|])
    else None
  }

  /**
    A greeting is exactly the fixed prefix, the name and the fixed suffix: the
    name can be read back, and the text has that frame only if it is the
    greeting of that name.
   */
  lemma GreetingRoundTrip(userName: Str, text: Str)
    ensures NameInGreeting(FormatGreeting(userName)) == Some(userName)
    ensures NameInGreeting(text).Some? ==> FormatGreeting(NameInGreeting(text).value) == text
  {
    var g := FormatGreeting(userName);
    assert g[..|GreetingPrefix|] == GreetingPrefix;
    assert g[|g| - |GreetingSuffix|..] == GreetingSuffix;
    assert g[|GreetingPrefix|..|g| - |GreetingSuffix|] == userName;
    if NameInGreeting(text).Some? {
      var n := NameInGreeting(text).value;
      assert text == text[..|GreetingPrefix|] + n + text[|text| - |GreetingSuffix|..];
    }
  }

  /** Different names give different greetings. */
  lemma GreetingInjective(a: Str, b: Str)
    ensures FormatGreeting(a) == FormatGreeting(b) ==> a == b
  {
    GreetingRoundTrip(a, []);
    GreetingRoundTrip(b, []);
  }

  /** `CanHandle`: a message that is the command "start". */
  predicate CanHandle(update: Telegram.Update)
  {
    update.message.Some? && update.message.value.command == Some(StartCommand)
  }

  /** Plain text, another command, a callback and an empty update are all refused. */
  lemma CanHandleCases(update: Telegram.Update)
    ensures update.message.None? ==> !CanHandle(update)
    ensures update.message.Some? && update.message.value.command.None? ==> !CanHandle(update)
    ensures update.message.Some? && update.message.value.command.Some? && update.message.value.command.value != StartCommand ==>
      !CanHandle(update)
    ensures update.message.Some? && update.message.value.command == Some(StartCommand) ==> CanHandle(update)
  {
  }

  /** The greeting `Handle` sends for a message with a sender. */
  function GreetingFor(msg: Telegram.Message): Str
    requires msg.from.Some?
  {
    FormatGreeting(GetUserName(msg.from.value.firstName, msg.from.value.userName))
  }

  class StartHandler {
    const userRepo: UserRepository.UserRepository
    const statsRepo: StatsRepository.StatsRepository

    ghost predicate Valid()
      reads this, userRepo, statsRepo
    {
      userRepo.Valid() && statsRepo.Valid()
    }

    constructor (userRepo: UserRepository.UserRepository, statsRepo: StatsRepository.StatsRepository)
      ensures this.userRepo == userRepo && this.statsRepo == statsRepo
    {
      this.userRepo := userRepo;
      this.statsRepo := statsRepo;
    }

    /**
      `Handle`: store the sender, record "start" only when the upsert returned
      a user, then send the greeting whatever the store did. The store calls
      precede the reply in the log. The source reads the sender's names before
      anything else, so the message must have one.
     */
    method Handle(update: Telegram.Update, w: World) returns (effects: seq<Effect>)
      requires Valid()
      requires update.message.Some? && update.message.value.from.Some?
      modifies userRepo, statsRepo
      ensures Valid()
      ensures StoreOutcome(update.message.value.from, StartCommand, w,
        old(userRepo.users), old(userRepo.lastId), old(statsRepo.rows), userRepo.users, userRepo.lastId, statsRepo.rows)
      ensures effects == StoreEffects(update.message.value.from, StartCommand, w, userRepo.users) +
        [SendMessage(update.message.value.chatId, GreetingFor(update.message.value))]
      ensures |effects| >= 2 && effects[0] == StoreUser(update.message.value.from.value.id) &&
        effects[|effects| - 1] == SendMessage(update.message.value.chatId, GreetingFor(update.message.value)) &&
        forall i | 0 <= i < |effects| - 1 :: effects[i].StoreUser? || effects[i].StoreCommand?
    {
      var msg := update.message.value;
      var greeting := FormatGreeting(GetUserName(msg.from.value.firstName, msg.from.value.userName));
      effects := [StoreUser(msg.from.value.id)];
      var user := userRepo.UpsertFromTelegram(msg.from, w.now, w.upsertFails, w.readFails);
      if user.Success? {
        effects := effects + [StoreCommand(user.value.id, StartCommand)];
        var _ := statsRepo.RecordCommand(user.value.id, StartCommand, w.now, w.recordFails);
      }
      effects := effects + [SendMessage(msg.chatId, greeting)];
    }
  }
}
