/** The document store as an in-memory value: one optional profile document
    per user (all fields optional, merge-updated) and the collection of
    download work records. Every operation takes the store and returns the
    new one. */
module Store {
  import opened Wrappers
  import opened Types
  import Seqs

  /** A user's stored profile document, or a partial user to merge into it:
      every field may be absent. */
  datatype Profile = Profile(
    email: Option<string>,
    displayName: Option<string>,
    fcmToken: Option<string>,
    lastSyncTimestamp: Option<int>,
    isActive: Option<bool>,
    youtubeRefreshToken: Option<string>,
    isInitialized: Option<bool>,
    baselineVideoIds: Option<seq<string>>)

  /** A partial user with no field set. */
  const NoFields: Profile := Profile(None, None, None, None, None, None, None, None)

  datatype Store = Store(
    userRefs: seq<string>,              // user documents, in listing order
    profiles: map<string, Profile>,     // profile document of each user that has one
    downloads: seq<Download>)           // the download collection, in creation order (read as the query order)

  /** User references are listed once each and every profile belongs to a listed user. */
  predicate Valid(st: Store) {
    && Seqs.Distinct(st.userRefs)
    && forall id :: id in st.profiles ==> id in st.userRefs
  }

  /** A user is active unless the stored flag is exactly `false`. */
  predicate ActiveProfile(p: Profile) {
    p.isActive != Some(false)
  }

  /** The user a profile document is read as. Missing strings read as empty,
      a missing sync time as the epoch, an empty refresh token as none; the
      initialisation flag and the baseline are never read. */
  function ReadUser(userId: string, p: Profile): (u: User)
    ensures u.userId == userId
    ensures u.isActive <==> ActiveProfile(p)
    ensures u.isInitialized.None? && u.baselineVideoIds.None?
    ensures u.youtubeRefreshToken.Some? ==> u.youtubeRefreshToken.value != ""
  {
    User(
      userId,
      p.email.GetOr(""),
      p.displayName.GetOr(""),
      p.fcmToken.GetOr(""),
      p.lastSyncTimestamp.GetOr(0),
      ActiveProfile(p),
      if p.youtubeRefreshToken.Some? && p.youtubeRefreshToken.value != "" then p.youtubeRefreshToken else None,
      None,
      None)
  }

  /** The error a rejected user write throws. */
  const SaveFailed: string := "Impossible de sauvegarder l'utilisateur"

  /** The error `getUser` throws when the read itself fails. */
  const UserReadFailed: string := "Impossible de récupérer l'utilisateur"

  /** The user with this id: none exactly when there is no profile document. */
  function GetUser(st: Store, userId: string): (r: Option<User>)
    ensures r.None? <==> userId !in st.profiles
    ensures r.Some? ==> r.value == ReadUser(userId, st.profiles[userId])
  {
    if userId in st.profiles then Some(ReadUser(userId, st.profiles[userId])) else None
  }

  /** `patch`'s fields where given, `prev`'s otherwise; the sync time is the
      supplied one or `now`. */
  function Merge(prev: Profile, patch: Profile, now: int): Profile {
    Profile(
      if patch.email.Some? then patch.email else prev.email,
      if patch.displayName.Some? then patch.displayName else prev.displayName,
      if patch.fcmToken.Some? then patch.fcmToken else prev.fcmToken,
      Some(patch.lastSyncTimestamp.GetOr(now)),
      if patch.isActive.Some? then patch.isActive else prev.isActive,
      if patch.youtubeRefreshToken.Some? then patch.youtubeRefreshToken else prev.youtubeRefreshToken,
      if patch.isInitialized.Some? then patch.isInitialized else prev.isInitialized,
      if patch.baselineVideoIds.Some? then patch.baselineVideoIds else prev.baselineVideoIds)
  }

  /** Writing the same patch twice stores what writing it once does, and a
      patch with no fields only refreshes the sync time. */
  lemma {:induction false} MergeLaws(prev: Profile, patch: Profile, now: int)
    ensures Merge(Merge(prev, patch, now), patch, now) == Merge(prev, patch, now)
    ensures Merge(prev, NoFields, now) == prev.(lastSyncTimestamp := Some(now))
  {
  }

  /** The profile stored for a user, or the empty document. */
  function ProfileOf(st: Store, userId: string): Profile {
    if userId in st.profiles then st.profiles[userId] else NoFields
  }

  /** Every field stays as it was. */
  predicate SameFields(a: Profile, b: Profile) {
    a.email == b.email && a.displayName == b.displayName && a.fcmToken == b.fcmToken
    && a.isActive == b.isActive && a.youtubeRefreshToken == b.youtubeRefreshToken
    && a.isInitialized == b.isInitialized && a.baselineVideoIds == b.baselineVideoIds
  }

  /** Only `userId`'s profile may differ between the two stores, and its user
      reference is added when missing; the downloads are the same. */
  predicate OnlyProfileChanged(st: Store, st': Store, userId: string) {
    && st'.downloads == st.downloads
    && (st'.userRefs == st.userRefs || (userId !in st.userRefs && st'.userRefs == st.userRefs + [userId]))
    && userId in st'.profiles
    && st'.profiles == st.profiles[userId := st'.profiles[userId]]
  }

  /** Merge-write of a partial user: supplied fields overwrite, every other
      stored field is preserved, the sync time becomes the supplied one or
      `now`, and no other document changes. A missing document is created. */
  function CreateOrUpdateUser(st: Store, userId: string, patch: Profile, now: int): (st': Store)
    ensures OnlyProfileChanged(st, st', userId)
    ensures var p, q := ProfileOf(st, userId), st'.profiles[userId];
      && (patch.email.Some? ==> q.email == patch.email)
      && (patch.displayName.Some? ==> q.displayName == patch.displayName)
      && (patch.fcmToken.Some? ==> q.fcmToken == patch.fcmToken)
      && (patch.isActive.Some? ==> q.isActive == patch.isActive)
      && (patch.youtubeRefreshToken.Some? ==> q.youtubeRefreshToken == patch.youtubeRefreshToken)
      && (patch.isInitialized.Some? ==> q.isInitialized == patch.isInitialized)
      && (patch.baselineVideoIds.Some? ==> q.baselineVideoIds == patch.baselineVideoIds)
      && (patch.email.None? ==> q.email == p.email)
      && (patch.displayName.None? ==> q.displayName == p.displayName)
      && (patch.fcmToken.None? ==> q.fcmToken == p.fcmToken)
      && (patch.isActive.None? ==> q.isActive == p.isActive)
      && (patch.youtubeRefreshToken.None? ==> q.youtubeRefreshToken == p.youtubeRefreshToken)
      && (patch.isInitialized.None? ==> q.isInitialized == p.isInitialized)
      && (patch.baselineVideoIds.None? ==> q.baselineVideoIds == p.baselineVideoIds)
      && q.lastSyncTimestamp == Some(if patch.lastSyncTimestamp.Some? then patch.lastSyncTimestamp.value else now)
    ensures Valid(st) ==> Valid(st')
  {
    var refs := if userId in st.userRefs then st.userRefs else st.userRefs + [userId];
    var st' := Store(refs, st.profiles[userId := Merge(ProfileOf(st, userId), patch, now)], st.downloads);
    assert Valid(st) ==> Seqs.Distinct(refs);
    st'
  }

  /** The user has a profile document that is active. */
  predicate ActiveId(st: Store, id: string) {
    id in st.profiles && ActiveProfile(st.profiles[id])
  }

  /** Ids of the listed users that have a profile and are active, in listing order. */
  function ActiveIds(st: Store): (ids: seq<string>)
    ensures forall id :: id in ids <==> id in st.userRefs && id in st.profiles && ActiveProfile(st.profiles[id])
    ensures forall i :: 0 <= i < |ids| ==> ids[i] in st.profiles
    ensures Seqs.IsSubseq(ids, st.userRefs)
    ensures Valid(st) ==> Seqs.Distinct(ids)
  {
    Seqs.FilterDistinct(st.userRefs, id => ActiveId(st, id));
    Seqs.Filter(st.userRefs, id => ActiveId(st, id))
  }

  /** The ids of `users`, in order. */
  function UserIds(users: seq<User>): (ids: seq<string>)
    ensures |ids| == |users|
    ensures forall i :: 0 <= i < |users| ==> ids[i] == users[i].userId
  {
    seq(|users|, i requires 0 <= i < |users| => users[i].userId)
  }

  /** Every user that has a profile document and is not explicitly inactive,
      in listing order, read as `GetUser` reads it. */
  function GetAllActiveUsers(st: Store): (users: seq<User>)
    ensures UserIds(users) == ActiveIds(st)
    ensures forall i :: 0 <= i < |users| ==> GetUser(st, users[i].userId) == Some(users[i])
    ensures forall i :: 0 <= i < |users| ==> users[i].isActive
    ensures forall i :: 0 <= i < |users| ==> users[i].isInitialized.None? && users[i].baselineVideoIds.None?
    ensures Valid(st) ==> Seqs.Distinct(UserIds(users))
  {
    var ids := ActiveIds(st);
    var users := seq(|ids|, i requires 0 <= i < |ids| => ReadUser(ids[i], st.profiles[ids[i]]));
    assert UserIds(users) == ids;
    users
  }

  /** Every referenced active user is listed, as `ReadUser` reads it. */
  lemma {:induction false} ActiveUserListed(st: Store, id: string)
    requires id in st.userRefs && ActiveId(st, id)
    ensures ReadUser(id, st.profiles[id]) in GetAllActiveUsers(st)
  {
    var users, ids := GetAllActiveUsers(st), ActiveIds(st);
    assert id in ids;
    var j :| 0 <= j < |ids| && ids[j] == id;
    assert UserIds(users)[j] == users[j].userId;
    assert GetUser(st, id) == Some(users[j]);
  }

  /** Every listed user is a referenced active user, as `ReadUser` reads it. */
  lemma {:induction false} ListedUserActive(st: Store, u: User)
    requires u in GetAllActiveUsers(st)
    ensures u.userId in st.userRefs && ActiveId(st, u.userId)
    ensures u == ReadUser(u.userId, st.profiles[u.userId])
  {
    var users := GetAllActiveUsers(st);
    var j :| 0 <= j < |users| && users[j] == u;
    assert UserIds(users)[j] == u.userId;
    assert u.userId in ActiveIds(st);
    assert GetUser(st, u.userId) == Some(u);
  }

  /** Sets the sync time of an existing profile; fails when the profile
      document does not exist (an update, not a merge). */
  function UpdateUserSyncTimestamp(st: Store, userId: string, t: int): (r: Option<Store>)
    ensures r.None? <==> userId !in st.profiles
    ensures r.Some? ==>
      && OnlyProfileChanged(st, r.value, userId)
      && r.value.profiles[userId].lastSyncTimestamp == Some(t)
      && SameFields(r.value.profiles[userId], st.profiles[userId])
  {
    if userId in st.profiles then
      Some(st.(profiles := st.profiles[userId := st.profiles[userId].(lastSyncTimestamp := Some(t))]))
    else None
  }

  /** Some record concerns this user and video. */
  predicate HasRecord(ds: seq<Download>, userId: string, videoId: string) {
    exists i :: 0 <= i < |ds| && ds[i].userId == userId && ds[i].videoId == videoId
  }

  /** Index of the first record for this user and video. */
  function FindDownload(ds: seq<Download>, userId: string, videoId: string): (r: Option<nat>)
    ensures r.None? <==> !HasRecord(ds, userId, videoId)
    ensures r.Some? ==> r.value < |ds| && ds[r.value].userId == userId && ds[r.value].videoId == videoId
    ensures r.Some? ==> forall j :: 0 <= j < r.value ==> !(ds[j].userId == userId && ds[j].videoId == videoId)
    decreases |ds|
  {
    if |ds| == 0 then None
    else if ds[0].userId == userId && ds[0].videoId == videoId then Some(0)
    else
      match FindDownload(ds[1..], userId, videoId)
      case None =>
        assert forall i :: 1 <= i < |ds| ==> ds[i] == ds[1..][i - 1];
        None
      case Some(i) => Some(i + 1)
  }

  /** The record for this user and video, if any: none exactly when no
      record matches both. */
  function GetDownload(st: Store, userId: string, videoId: string): (r: Option<Download>)
    ensures r.None? <==> !HasRecord(st.downloads, userId, videoId)
    ensures r.Some? ==> r.value in st.downloads && r.value.userId == userId && r.value.videoId == videoId
  {
    match FindDownload(st.downloads, userId, videoId)
    case None => None
    case Some(i) => Some(st.downloads[i])
  }

  /** Appends a record, without looking for an existing one. */
  function CreateDownload(st: Store, d: Download): (st': Store)
    ensures st'.downloads == st.downloads + [d]
    ensures st'.userRefs == st.userRefs && st'.profiles == st.profiles
    ensures GetDownload(st', d.userId, d.videoId).Some?
  {
    var st' := st.(downloads := st.downloads + [d]);
    assert st'.downloads[|st.downloads|] == d;
    st'
  }

  /** The error a failed status update throws. */
  const StatusUpdateFailed: string := "Impossible de mettre à jour le status"

  /** The first record for this user and video with its status replaced and,
      when a non-empty path is given, its path; nothing else changes, and
      nothing at all when no record matches. The query for the record is
      accepted as `queryOk` says and the update of a found record as
      `writeOk` says; either failure throws `StatusUpdateFailed`. */
  function UpdateDownloadStatus(st: Store, userId: string, videoId: string, status: DownloadStatus, path: Option<string>,
                                queryOk: bool, writeOk: bool): (r: Result<Store>)
    ensures r.Ok? <==> queryOk && (HasRecord(st.downloads, userId, videoId) ==> writeOk)
    ensures r.Err? ==> r.error == StatusUpdateFailed
    ensures r.Ok? ==> r.value.userRefs == st.userRefs && r.value.profiles == st.profiles
    ensures r.Ok? ==> |r.value.downloads| == |st.downloads|
    ensures r.Ok? && !HasRecord(st.downloads, userId, videoId) ==> r.value == st
    ensures r.Ok? && HasRecord(st.downloads, userId, videoId) ==>
      var i, st' := FindDownload(st.downloads, userId, videoId).value, r.value;
      && st'.downloads[i].status == status
      && st'.downloads[i].downloadPath == (if path.Some? && path.value != "" then path else st.downloads[i].downloadPath)
      && st'.downloads[i].(status := st.downloads[i].status, downloadPath := st.downloads[i].downloadPath) == st.downloads[i]
      && forall j :: 0 <= j < |st.downloads| && j != i ==> st'.downloads[j] == st.downloads[j]
  {
    if !queryOk then Err(StatusUpdateFailed)
    else match FindDownload(st.downloads, userId, videoId)
      case None => Ok(st)
      case Some(i) =>
        if !writeOk then Err(StatusUpdateFailed)
        else
          var d := st.downloads[i];
          var d' := if path.Some? && path.value != "" then d.(status := status, downloadPath := path) else d.(status := status);
          Ok(st.(downloads := st.downloads[i := d']))
  }

  /** After an accepted status update, the record found for the pair
      carries the new status. */
  lemma {:induction false} UpdateThenGet(st: Store, userId: string, videoId: string, status: DownloadStatus, path: Option<string>)
    requires HasRecord(st.downloads, userId, videoId)
    ensures var u := UpdateDownloadStatus(st, userId, videoId, status, path, true, true);
      u.Ok? && var r := GetDownload(u.value, userId, videoId);
      r.Some? && r.value.status == status
  {
    var st' := UpdateDownloadStatus(st, userId, videoId, status, path, true, true).value;
    var i := FindDownload(st.downloads, userId, videoId).value;
    forall j | 0 <= j < i
      ensures !(st'.downloads[j].userId == userId && st'.downloads[j].videoId == videoId)
    {
    }
    assert st'.downloads[i].userId == userId && st'.downloads[i].videoId == videoId;
  }

  datatype Stats = Stats(totalUsers: nat, activeUsers: nat, totalDownloads: nat)

  /** User and download counts; any failure of the store yields all zeros. */
  function GetStats(st: Store, reachable: bool): (s: Stats)
    ensures !reachable ==> s == Stats(0, 0, 0)
    ensures reachable ==> s.totalUsers == |st.userRefs| && s.totalDownloads == |st.downloads|
    ensures reachable ==> s.activeUsers == |GetAllActiveUsers(st)| && s.activeUsers <= s.totalUsers
  {
    if !reachable then Stats(0, 0, 0)
    else
      Stats(|st.userRefs|, |ActiveIds(st)|, |st.downloads|)
  }
}
