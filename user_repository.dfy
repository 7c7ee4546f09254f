/**
  The `users` table of internal/database/repository/user.go: one row per
  Telegram id (the UNIQUE column), each with an AUTOINCREMENT id. The table is
  a map from Telegram id to row; `lastId` is the largest id handed out.
 */
module UserRepository {
  import opened Wrappers
  import opened Models
  import Telegram

  datatype StoreError = NilUser | WriteFailed | ReadFailed

  /** The table's integrity: rows sit under their own Telegram id, ids are positive, handed out and distinct. */
  ghost predicate TableInvariant(users: map<int, User>, lastId: int)
  {
    lastId >= 0 &&
    (forall t | t in users :: users[t].telegramUserId == t && 1 <= users[t].id <= lastId) &&
    (forall t, u | t in users && u in users && t != u :: users[t].id != users[u].id)
  }

  /** The row `INSERT ... ON CONFLICT(telegram_user_id) DO UPDATE` leaves for `tg.id`. */
  function UpsertRow(users: map<int, User>, lastId: int, tg: Telegram.TgUser, now: int): User
  {
    if tg.id in users then
      var row := users[tg.id];
      User(row.id, tg.id, tg.userName, tg.firstName, tg.lastName, tg.languageCode, row.createdAt, now)
    else
      User(lastId + 1, tg.id, tg.userName, tg.firstName, tg.lastName, tg.languageCode, now, now)
  }

  function Upserted(users: map<int, User>, lastId: int, tg: Telegram.TgUser, now: int): map<int, User>
  {
    users[tg.id := UpsertRow(users, lastId, tg, now)]
  }

  function NextLastId(users: map<int, User>, lastId: int, tg: Telegram.TgUser): int
  {
    if tg.id in users then lastId else lastId + 1
  }

  /**
    An upsert keeps the table's integrity; a known Telegram id keeps its row's
    id and creation time and takes the new names, language and update time; an
    unknown one adds exactly one row with a fresh id; other rows are untouched.
   */
  lemma UpsertFacts(users: map<int, User>, lastId: int, tg: Telegram.TgUser, now: int)
    requires TableInvariant(users, lastId)
    ensures TableInvariant(Upserted(users, lastId, tg, now), NextLastId(users, lastId, tg))
    ensures var row := Upserted(users, lastId, tg, now)[tg.id];
      row.telegramUserId == tg.id && row.username == tg.userName && row.firstName == tg.firstName &&
      row.lastName == tg.lastName && row.languageCode == tg.languageCode && row.updatedAt == now
    ensures tg.id in users ==>
      Upserted(users, lastId, tg, now)[tg.id].id == users[tg.id].id &&
      Upserted(users, lastId, tg, now)[tg.id].createdAt == users[tg.id].createdAt &&
      |Upserted(users, lastId, tg, now)| == |users|
    ensures tg.id !in users ==>
      |Upserted(users, lastId, tg, now)| == |users| + 1 &&
      forall t | t in users :: users[t].id != Upserted(users, lastId, tg, now)[tg.id].id
    ensures forall t | t in users && t != tg.id :: Upserted(users, lastId, tg, now)[t] == users[t]
  {
    var m := Upserted(users, lastId, tg, now);
    if tg.id !in users {
      assert m.Keys == users.Keys + {tg.id};
    } else {
      assert m.Keys == users.Keys;
    }
  }

  /** The table after upserting `tgs` in order. */
  function UpsertAll(users: map<int, User>, lastId: int, tgs: seq<Telegram.TgUser>, now: int): map<int, User>
    decreases tgs
  {
    if tgs == [] then users
    else UpsertAll(Upserted(users, lastId, tgs[0], now), NextLastId(users, lastId, tgs[0]), tgs[1..], now)
  }

  /** The Telegram ids among `tgs`. */
  function IdsOf(tgs: seq<Telegram.TgUser>): set<int>
  {
    set i | 0 <= i < |tgs| :: tgs[i].id
  }

  lemma {:induction false} UpsertAllKeys(users: map<int, User>, lastId: int, tgs: seq<Telegram.TgUser>, now: int)
    ensures UpsertAll(users, lastId, tgs, now).Keys == users.Keys + IdsOf(tgs)
    decreases tgs
  {
    if tgs != [] {
      UpsertAllKeys(Upserted(users, lastId, tgs[0], now), NextLastId(users, lastId, tgs[0]), tgs[1..], now);
      assert IdsOf(tgs) == {tgs[0].id} + IdsOf(tgs[1..]) by {
        forall t | t in IdsOf(tgs) ensures t in {tgs[0].id} + IdsOf(tgs[1..]) {
          var i :| 0 <= i < |tgs| && tgs[i].id == t;
          if i > 0 { assert tgs[1..][i - 1] == tgs[i]; }
        }
      }
    }
  }

  /** Starting from an empty table, the user count is the number of distinct Telegram ids upserted. */
  lemma TotalUsersCountsDistinctIds(tgs: seq<Telegram.TgUser>, now: int)
    ensures |UpsertAll(map[], 0, tgs, now)| == |IdsOf(tgs)|
  {
    UpsertAllKeys(map[], 0, tgs, now);
    assert UpsertAll(map[], 0, tgs, now).Keys == IdsOf(tgs);
  }

  class UserRepository {
    var users: map<int, User>
    var lastId: int

    ghost predicate Valid()
      reads this
    {
      TableInvariant(users, lastId)
    }

    constructor ()
      ensures Valid() && users == map[] && lastId == 0
    {
      users := map[];
      lastId := 0;
    }

    /**
      `UpsertFromTelegram`: `now` is the clock, `writeFails` whether the
      INSERT fails and `readFails` whether the read-back that follows it
      fails. The returned user is the stored row for the Telegram id; a failed
      read-back is an error although the table has already changed.
     */
    method UpsertFromTelegram(tg: Option<Telegram.TgUser>, now: int, writeFails: bool, readFails: bool)
      returns (r: Result<User, StoreError>)
      requires Valid()
      modifies this
      ensures Valid()
      ensures tg.None? ==> r == Failure(NilUser) && users == old(users) && lastId == old(lastId)
      ensures tg.Some? && writeFails ==> r == Failure(WriteFailed) && users == old(users) && lastId == old(lastId)
      ensures tg.Some? && !writeFails ==>
        users == Upserted(old(users), old(lastId), tg.value, now) &&
        lastId == NextLastId(old(users), old(lastId), tg.value) &&
        r == (if readFails then Failure(ReadFailed) else Success(users[tg.value.id]))
    {
      if tg.None? {
        return Failure(NilUser);
      }
      if writeFails {
        return Failure(WriteFailed);
      }
      UpsertFacts(users, lastId, tg.value, now);
      users, lastId := Upserted(users, lastId, tg.value, now), NextLastId(users, lastId, tg.value);
      var u := GetByTelegramID(tg.value.id, readFails);
      if u.Failure? {
        return Failure(ReadFailed);
      }
      return Success(u.value.value);
    }

    /**
      `GetByTelegramID`: the row for the id, or none (and no error) when there
      is none; `readFails` is whether the query itself fails.
     */
    method GetByTelegramID(telegramUserId: int, readFails: bool) returns (r: Result<Option<User>, StoreError>)
      requires Valid()
      ensures readFails ==> r == Failure(ReadFailed)
      ensures !readFails ==> r.Success? && (r.value.Some? <==> telegramUserId in users)
      ensures !readFails && r.value.Some? ==>
        r.value.value == users[telegramUserId] && r.value.value.telegramUserId == telegramUserId
    {
      if readFails {
        return Failure(ReadFailed);
      }
      if telegramUserId in users {
        return Success(Some(users[telegramUserId]));
      }
      return Success(None);
    }

    /** `GetTotalUsers`: `COUNT(*)` over the table. */
    method GetTotalUsers() returns (n: int)
      requires Valid()
      ensures n == |users|
    {
      n := |users|;
    }
  }
}
