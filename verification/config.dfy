/**
  The uploader's settings, read once at start-up and never changed afterwards.
  Only the fields the per-item decisions consult are modelled; the logging
  settings are configuration of a library outside this model.
 */
module Config {

  /** Where and how the external sync tool uploads. */
  datatype RcloneConfig = RcloneConfig(
    remoteName: string,
    albumName: string,
    deleteAfterUpload: bool,
    checkDuplicates: bool)

  /** Worker count, settle delay, retry policy. Go `int` fields, so they may be zero or negative. */
  datatype UploadConfig = UploadConfig(
    concurrentUploads: int,
    waitTime: int,
    retryCount: int,
    retryInterval: int)

  datatype Config = Config(
    watchDirectory: string,
    supportedExtensions: seq<string>,
    rclone: RcloneConfig,
    upload: UploadConfig)

}
