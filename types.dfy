/** The record shapes shared by the service and the two components. */
module Types {

  datatype Option<+T> = None | Some(value: T)

  /** The four thumbnail tiers, i.e. the keys of ThumbnailData other than videoId. */
  datatype Tier = MaxRes | Hq | Mq | Sd {
    /** The property name of the tier, which is also the `res` string handed to the download queue. */
    function Key(): string {
      match this
      case MaxRes => "maxRes"
      case Hq => "hq"
      case Mq => "mq"
      case Sd => "sd"
    }
  }

  /** A video id together with the four thumbnail URLs derived from it. */
  datatype ThumbnailData = ThumbnailData(videoId: string, maxRes: string, hq: string, mq: string, sd: string) {
    /** `data[tier]` */
    function Get(t: Tier): string {
      match t
      case MaxRes => maxRes
      case Hq => hq
      case Mq => mq
      case Sd => sd
    }
  }

  datatype Status = Pending | Downloading | Completed | Failed

  /** One entry of the download queue; progress is a number that may be fractional. */
  datatype DownloadQueueItem = DownloadQueueItem(id: string, videoId: string, resolution: string, progress: real, status: Status)
}
