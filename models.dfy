/** The rows of the usage store; timestamps are opaque integers. */
module Models {
  import opened Bytes

  datatype User = User(
    id: int, telegramUserId: int, username: Str, firstName: Str, lastName: Str,
    languageCode: Str, createdAt: int, updatedAt: int)

  datatype CommandStat = CommandStat(id: int, userId: int, command: Str, executedAt: int)

  datatype VideoDownload = VideoDownload(
    id: int, userId: int, videoId: Str, videoUrl: Str, videoTitle: Str, quality: Str,
    compressed: bool, fileSizeBytes: int, executedAt: int)
}
