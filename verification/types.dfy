/** The records shared by the services: users, download work records, liked
    videos and the polling summary. Dates are integers (milliseconds since
    the epoch); `0` is the epoch. */
module Types {
  import opened Wrappers

  /** A registered user as the services see it. `fcmToken` is mandatory, so
      "no push token" is the empty string; the three last fields are optional. */
  datatype User = User(
    userId: string,
    email: string,
    displayName: string,
    fcmToken: string,
    lastSyncTimestamp: int,
    isActive: bool,
    youtubeRefreshToken: Option<string>,
    isInitialized: Option<bool>,
    baselineVideoIds: Option<seq<string>>)

  /** Life cycle of a download work record: a closed set of four states. */
  datatype DownloadStatus = Pending | Downloading | Completed | Error {

    /** The status as stored in a record. */
    function Name(): string {
      match this
      case Pending => "pending"
      case Downloading => "downloading"
      case Completed => "completed"
      case Error => "error"
    }
  }

  /** The status a stored name denotes, if any. */
  function ParseStatus(s: string): (r: Option<DownloadStatus>)
    ensures r.Some? ==> r.value.Name() == s
  {
    if s == "pending" then Some(Pending)
    else if s == "downloading" then Some(Downloading)
    else if s == "completed" then Some(Completed)
    else if s == "error" then Some(Error)
    else None
  }

  /** Every status is recovered from its name, and only the four names denote
      a status. */
  lemma {:induction false} StatusRoundTrip(st: DownloadStatus, s: string)
    ensures ParseStatus(st.Name()) == Some(st)
    ensures ParseStatus(s).Some? <==> s in ["pending", "downloading", "completed", "error"]
  {
  }

  /** One work record: a liked video to be downloaded for a user.
      `downloadPath` is the only optional field. */
  datatype Download = Download(
    userId: string,
    videoId: string,
    title: string,
    status: DownloadStatus,
    downloadPath: Option<string>,
    timestamp: int)

  /** A liked video as extracted from the video platform's answer.
      `isShort` is derived from the duration when there is one. */
  datatype LikedVideo = LikedVideo(
    videoId: string,
    title: string,
    duration: Option<string>,
    publishedAt: Option<string>,
    channelTitle: Option<string>,
    thumbnailUrl: Option<string>,
    isShort: bool)

  /** The identifiers of `vs`, in order. */
  function VideoIds(vs: seq<LikedVideo>): (ids: seq<string>)
    ensures |ids| == |vs|
    ensures forall i :: 0 <= i < |vs| ==> ids[i] == vs[i].videoId
  {
    seq(|vs|, i requires 0 <= i < |vs| => vs[i].videoId)
  }

  /** The ids of a suffix are the suffix of the ids. */
  lemma {:induction false} VideoIdsSuffix(vs: seq<LikedVideo>, k: nat)
    requires k <= |vs|
    ensures VideoIds(vs[k..]) == VideoIds(vs)[k..]
  {
  }

  /** Summary returned by one polling run. */
  datatype PollLikesResponse = PollLikesResponse(
    success: bool,
    usersChecked: nat,
    totalNewLikes: nat,
    fcmNotificationsSent: nat)
}
