/**
  The `command_stats` table of internal/database/repository/stats.go: an
  append-only sequence of rows whose AUTOINCREMENT id is the position plus one.
 */
module StatsRepository {
  import opened Bytes
  import opened Models
  import Aggregate

  /** One row of the popular-commands query. */
  datatype CommandCount = CommandCount(command: Str, count: int)

  /** The `command` column. */
  function Commands(rows: seq<CommandStat>): seq<Aggregate.Key>
  {
    seq(|rows|, i requires 0 <= i < |rows| => Aggregate.Text(rows[i].command))
  }

  /** The `user_id` column. */
  function UserIds(rows: seq<CommandStat>): seq<Aggregate.Key>
  {
    seq(|rows|, i requires 0 <= i < |rows| => Aggregate.Integer(rows[i].userId))
  }

  /** `SELECT COUNT(*) FROM command_stats WHERE user_id = ?` */
  function CommandCountOf(rows: seq<CommandStat>, userId: int): nat
  {
    Aggregate.Occurrences(UserIds(rows), Aggregate.Integer(userId))
  }

  /** Appending a row adds one to its user's count and leaves every other user's count alone. */
  lemma RecordedRowCounts(rows: seq<CommandStat>, row: CommandStat, userId: int)
    ensures CommandCountOf(rows + [row], userId) ==
      CommandCountOf(rows, userId) + (if row.userId == userId then 1 else 0)
  {
    assert UserIds(rows + [row])[..|rows|] == UserIds(rows);
  }

  /** The total equals the sum of the per-user counts over the users that appear. */
  lemma TotalIsSumOfUserCounts(rows: seq<CommandStat>)
    ensures |rows| == Aggregate.SumOfCounts(UserIds(rows), Aggregate.Distinct(UserIds(rows)))
  {
    Aggregate.CountsAddUp(UserIds(rows));
  }

  class StatsRepository {
    var rows: seq<CommandStat>

    ghost predicate Valid()
      reads this
    {
      forall i | 0 <= i < |rows| :: rows[i].id == i + 1
    }

    constructor ()
      ensures Valid() && rows == []
    {
      rows := [];
    }

    /** `RecordCommand`: appends one row, unless the INSERT fails (`writeFails`); `now` is the clock. */
    method RecordCommand(userId: int, command: Str, now: int, writeFails: bool) returns (ok: bool)
      requires Valid()
      modifies this
      ensures Valid()
      ensures ok == !writeFails
      ensures ok ==> rows == old(rows) + [CommandStat(|old(rows)| + 1, userId, command, now)]
      ensures !ok ==> rows == old(rows)
    {
      if writeFails {
        return false;
      }
      rows := rows + [CommandStat(|rows| + 1, userId, command, now)];
      return true;
    }

    /** `GetCommandCount`: the number of rows of the user. */
    method GetCommandCount(userId: int) returns (n: int)
      ensures n == CommandCountOf(rows, userId)
      ensures n <= |rows|
    {
      n := CommandCountOf(rows, userId);
      CountAtMostTotal(rows, userId);
    }

    /** `GetTotalCommands`: the number of rows. */
    method GetTotalCommands() returns (n: int)
      ensures n == |rows|
      ensures n == Aggregate.SumOfCounts(UserIds(rows), Aggregate.Distinct(UserIds(rows)))
    {
      n := |rows|;
      TotalIsSumOfUserCounts(rows);
    }

    /**
      `GetPopularCommands`: the query's rows, copied one by one. At most
      `limit` commands (all for a negative limit), each with its row count,
      none twice, in non-increasing count order, and no command left out was
      used more often than one returned.
     */
    method GetPopularCommands(limit: int) returns (results: seq<CommandCount>)
      ensures |results| == Aggregate.Limited(|Aggregate.Distinct(Commands(rows))|, limit)
      ensures forall i | 0 <= i < |results| ::
        results[i].count == Aggregate.Occurrences(Commands(rows), Aggregate.Text(results[i].command)) &&
        results[i].count > 0
      ensures forall i, j | 0 <= i < j < |results| ::
        results[i].command != results[j].command && results[i].count >= results[j].count
      ensures forall k | 0 <= k < |rows| && (forall i | 0 <= i < |results| :: results[i].command != rows[k].command) ::
        forall i | 0 <= i < |results| :: Aggregate.Occurrences(Commands(rows), Aggregate.Text(rows[k].command)) <= results[i].count
    {
      var keys := Commands(rows);
      var top := Aggregate.Top(keys, limit);
      Aggregate.TopFacts(keys, limit);
      assert forall i | 0 <= i < |top| :: top[i].Text? by {
        forall i | 0 <= i < |top| ensures top[i].Text? {
          if !top[i].Text? {
            TextColumn(rows, top[i]);
          }
        }
      }
      results := [];
      for i := 0 to |top|
        invariant |results| == i
        invariant forall j | 0 <= j < i ::
          results[j] == CommandCount(top[j].text, Aggregate.Occurrences(keys, top[j]))
      {
        results := results + [CommandCount(top[i].text, Aggregate.Occurrences(keys, top[i]))];
      }
      forall k | 0 <= k < |rows| && (forall i | 0 <= i < |results| :: results[i].command != rows[k].command)
        ensures forall i | 0 <= i < |results| :: Aggregate.Occurrences(keys, Aggregate.Text(rows[k].command)) <= results[i].count
      {
        assert keys[k] == Aggregate.Text(rows[k].command);
        assert keys[k] in keys;
        assert keys[k] !in top;
      }
    }
  }

  /** The command column holds only text. */
  lemma TextColumn(rows: seq<CommandStat>, k: Aggregate.Key)
    requires !k.Text?
    ensures Aggregate.Occurrences(Commands(rows), k) == 0
  {
    Aggregate.OccurrencesPositive(Commands(rows), k);
  }

  lemma CountAtMostTotal(rows: seq<CommandStat>, userId: int)
    ensures CommandCountOf(rows, userId) <= |rows|
  {
    Aggregate.OccurrencesBounded(UserIds(rows), Aggregate.Integer(userId));
  }
}
