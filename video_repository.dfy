/**
  The `video_downloads` table of internal/database/repository/video.go: an
  append-only sequence of rows whose AUTOINCREMENT id is the position plus one.
 */
module VideoRepository {
  import opened Bytes
  import opened Models
  import Aggregate

  /** One row of the popular-videos query. */
  datatype PopularVideo = PopularVideo(videoId: Str, videoTitle: Str, downloadCount: int)

  /** The `video_id` column. */
  function VideoIds(rows: seq<VideoDownload>): seq<Aggregate.Key>
  {
    seq(|rows|, i requires 0 <= i < |rows| => Aggregate.Text(rows[i].videoId))
  }

  /** The `user_id` column. */
  function UserIds(rows: seq<VideoDownload>): seq<Aggregate.Key>
  {
    seq(|rows|, i requires 0 <= i < |rows| => Aggregate.Integer(rows[i].userId))
  }

  /** `SELECT COUNT(*) FROM video_downloads WHERE user_id = ?` */
  function DownloadCountOf(rows: seq<VideoDownload>, userId: int): nat
  {
    Aggregate.Occurrences(UserIds(rows), Aggregate.Integer(userId))
  }

  /**
    The bare `video_title` of a group: SQLite takes it from one row of the
    group; this model takes the last one.
   */
  function GroupTitle(rows: seq<VideoDownload>, videoId: Str): Str
  {
    if rows == [] then []
    else if rows[|rows| - 1].videoId == videoId then rows[|rows| - 1].videoTitle
    else GroupTitle(rows[..|rows| - 1], videoId)
  }

  lemma {:induction false} GroupTitleFromGroup(rows: seq<VideoDownload>, videoId: Str)
    requires Aggregate.Text(videoId) in VideoIds(rows)
    ensures exists k | 0 <= k < |rows| :: rows[k].videoId == videoId && rows[k].videoTitle == GroupTitle(rows, videoId)
  {
    var pre := rows[..|rows| - 1];
    if rows[|rows| - 1].videoId != videoId {
      var j :| 0 <= j < |rows| && VideoIds(rows)[j] == Aggregate.Text(videoId);
      assert j < |pre|;
      assert VideoIds(pre)[j] == Aggregate.Text(videoId);
      GroupTitleFromGroup(pre, videoId);
      var k :| 0 <= k < |pre| && pre[k].videoId == videoId && pre[k].videoTitle == GroupTitle(pre, videoId);
      assert rows[k] == pre[k];
    }
  }

  /** Appending a row adds one to its user's count and leaves every other user's count alone. */
  lemma RecordedRowCounts(rows: seq<VideoDownload>, row: VideoDownload, userId: int)
    ensures DownloadCountOf(rows + [row], userId) ==
      DownloadCountOf(rows, userId) + (if row.userId == userId then 1 else 0)
  {
    assert UserIds(rows + [row])[..|rows|] == UserIds(rows);
  }

  class VideoRepository {
    var rows: seq<VideoDownload>

    ghost predicate Valid()
      reads this
    {
      forall i | 0 <= i < |rows| :: rows[i].id == i + 1
    }

    constructor ()
      ensures Valid() && rows == []
    {
      rows := [];
    }

    /** `RecordDownload`: appends one row with the given fields (the id is assigned), unless the INSERT fails. */
    method RecordDownload(download: VideoDownload, writeFails: bool) returns (ok: bool)
      requires Valid()
      modifies this
      ensures Valid()
      ensures ok == !writeFails
      ensures ok ==> rows == old(rows) + [download.(id := |old(rows)| + 1)]
      ensures !ok ==> rows == old(rows)
    {
      if writeFails {
        return false;
      }
      rows := rows + [download.(id := |rows| + 1)];
      return true;
    }

    /** `GetUserDownloadCount`: the number of rows of the user. */
    method GetUserDownloadCount(userId: int) returns (n: int)
      ensures n == DownloadCountOf(rows, userId)
      ensures n <= |rows|
    {
      n := DownloadCountOf(rows, userId);
      Aggregate.OccurrencesBounded(UserIds(rows), Aggregate.Integer(userId));
    }

    /** `GetTotalDownloads`: the number of rows, which is the sum of the per-user counts. */
    method GetTotalDownloads() returns (n: int)
      ensures n == |rows|
      ensures n == Aggregate.SumOfCounts(UserIds(rows), Aggregate.Distinct(UserIds(rows)))
    {
      n := |rows|;
      Aggregate.CountsAddUp(UserIds(rows));
    }

    /**
      `GetPopularVideos`: the query's rows, copied one by one. At most `limit`
      videos (all for a negative limit), each with its row count and a title
      taken from one of its rows, none twice, in non-increasing count order,
      and no video left out was downloaded more often than one returned.
     */
    method GetPopularVideos(limit: int) returns (videos: seq<PopularVideo>)
      ensures PopularVideos(rows, limit, videos)
    {
      var keys := VideoIds(rows);
      var top := Aggregate.Top(keys, limit);
      TopVideosAreText(rows, limit);
      videos := [];
      for i := 0 to |top|
        invariant |videos| == i
        invariant forall j | 0 <= j < i ::
          videos[j] == PopularVideo(top[j].text, GroupTitle(rows, top[j].text), Aggregate.Occurrences(keys, top[j]))
      {
        videos := videos + [PopularVideo(top[i].text, GroupTitle(rows, top[i].text), Aggregate.Occurrences(keys, top[i]))];
      }
      PopularVideosFacts(rows, limit, videos);
    }
  }

  /**
    What the popular-videos query promises: at most `limit` videos (all for a
    negative limit), each with its row count and a title taken from one of
    its rows, none twice, in non-increasing count order, and no video left
    out downloaded more often than one returned.
   */
  ghost predicate PopularVideos(rows: seq<VideoDownload>, limit: int, videos: seq<PopularVideo>)
  {
    |videos| == Aggregate.Limited(|Aggregate.Distinct(VideoIds(rows))|, limit) &&
    (forall i | 0 <= i < |videos| ::
      videos[i].downloadCount == Aggregate.Occurrences(VideoIds(rows), Aggregate.Text(videos[i].videoId)) &&
      videos[i].downloadCount > 0) &&
    (forall i | 0 <= i < |videos| :: exists k | 0 <= k < |rows| ::
      rows[k].videoId == videos[i].videoId && rows[k].videoTitle == videos[i].videoTitle) &&
    (forall i, j | 0 <= i < j < |videos| ::
      videos[i].videoId != videos[j].videoId && videos[i].downloadCount >= videos[j].downloadCount) &&
    (forall k | 0 <= k < |rows| && (forall i | 0 <= i < |videos| :: videos[i].videoId != rows[k].videoId) ::
      forall i | 0 <= i < |videos| :: Aggregate.Occurrences(VideoIds(rows), Aggregate.Text(rows[k].videoId)) <= videos[i].downloadCount)
  }

  /** The video-id column holds only text, and every key ranked holds some row. */
  lemma TopVideosAreText(rows: seq<VideoDownload>, limit: int)
    ensures forall i | 0 <= i < |Aggregate.Top(VideoIds(rows), limit)| ::
      Aggregate.Top(VideoIds(rows), limit)[i].Text? && Aggregate.Top(VideoIds(rows), limit)[i] in VideoIds(rows)
  {
    var keys := VideoIds(rows);
    var top := Aggregate.Top(keys, limit);
    Aggregate.TopFacts(keys, limit);
    forall i | 0 <= i < |top|
      ensures top[i].Text? && top[i] in keys
    {
      Aggregate.OccurrencesPositive(keys, top[i]);
      var k :| 0 <= k < |keys| && keys[k] == top[i];
    }
  }

  /** Copying the ranked groups with their counts and group titles meets the query's promise. */
  lemma PopularVideosFacts(rows: seq<VideoDownload>, limit: int, videos: seq<PopularVideo>)
    requires var top := Aggregate.Top(VideoIds(rows), limit);
      |videos| == |top| && forall j | 0 <= j < |top| ::
        top[j].Text? &&
        videos[j] == PopularVideo(top[j].text, GroupTitle(rows, top[j].text), Aggregate.Occurrences(VideoIds(rows), top[j]))
    ensures PopularVideos(rows, limit, videos)
  {
    var keys := VideoIds(rows);
    var top := Aggregate.Top(keys, limit);
    Aggregate.TopFacts(keys, limit);
    TopVideosAreText(rows, limit);
    forall i | 0 <= i < |videos|
      ensures exists k | 0 <= k < |rows| :: rows[k].videoId == videos[i].videoId && rows[k].videoTitle == videos[i].videoTitle
    {
      GroupTitleFromGroup(rows, top[i].text);
    }
    forall k | 0 <= k < |rows| && (forall i | 0 <= i < |videos| :: videos[i].videoId != rows[k].videoId)
      ensures forall i | 0 <= i < |videos| :: Aggregate.Occurrences(keys, Aggregate.Text(rows[k].videoId)) <= videos[i].downloadCount
    {
      assert keys[k] == Aggregate.Text(rows[k].videoId);
      assert keys[k] in keys;
      assert keys[k] !in top;
    }
  }
}
