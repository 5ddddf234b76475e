/** Sign-in side of the backend: the Google-provider check on a verified
    identity token, the merge that creates or reactivates a user's profile,
    the combined verify-and-sync entry point, and the small profile writes.
    Token verification itself is an input: the decoded token, or none. */
module Auth {
  import opened Wrappers
  import opened Types
  import opened Store
  import opened Strings
  import Notify

  /** A verified identity token. `email` and `name` may be absent; an
      `identities` entry records whether the value stored for that provider
      is truthy; the whole `identities` object may be absent. */
  datatype DecodedToken = DecodedToken(
    uid: string,
    email: Option<string>,
    name: Option<string>,
    signInProvider: string,
    identities: Option<map<string, bool>>)

  const GoogleProvider: string := "google.com"

  /** Signed in with Google, or holding a truthy Google identity. */
  predicate HasYouTubePermissions(t: DecodedToken) {
    || t.signInProvider == GoogleProvider
    || (t.identities.Some? && GoogleProvider in t.identities.value && t.identities.value[GoogleProvider])
  }

  /** The error every failure of the sync is rewrapped into. */
  const SyncFailed: string := "Échec de la synchronisation utilisateur"

  /** The partial user the sync writes: each string from the token (or the
      given device token), else the stored one, else empty; always active;
      the stored sync time kept, the epoch for a new user. */
  function SyncPatch(t: DecodedToken, fcmToken: Option<string>, existing: Option<User>): (p: Profile)
    ensures p.isActive == Some(true)
    ensures p.youtubeRefreshToken.None? && p.isInitialized.None? && p.baselineVideoIds.None?
    ensures existing.None? ==> p.lastSyncTimestamp == Some(0)
    ensures existing.Some? ==> p.lastSyncTimestamp == Some(existing.value.lastSyncTimestamp)
  {
    Profile(
      Some(OrElse(t.email.GetOr(""), if existing.Some? then existing.value.email else "")),
      Some(OrElse(t.name.GetOr(""), if existing.Some? then existing.value.displayName else "")),
      Some(OrElse(fcmToken.GetOr(""), if existing.Some? then existing.value.fcmToken else "")),
      Some(if existing.Some? then existing.value.lastSyncTimestamp else 0),
      Some(true),
      None,
      None,
      None)
  }

  /** The three store calls of a sync: the read of the existing user, the
      merge-write, and the read-back of the written user. Each is accepted or
      throws. */
  datatype SyncCalls = SyncCalls(readOk: bool, writeOk: bool, rereadOk: bool)

  /** A sync whose store calls all succeed. */
  const Accepted: SyncCalls := SyncCalls(true, true, true)

  /** `syncUserWithDatabase`: read the token owner's stored user, merge the
      sync patch into the profile and read the user back. Any store failure
      becomes `SyncFailed`; a failed read-back comes after the write, which
      stays. The clock is not consulted: the patch always carries a sync time. */
  function SyncUserWithDatabase(st: Store, t: DecodedToken, fcmToken: Option<string>, calls: SyncCalls): (r: (Store, Result<User>))
    ensures !(calls.readOk && calls.writeOk) ==> r == (st, Err(SyncFailed))
    ensures calls.readOk && calls.writeOk && !calls.rereadOk ==> r.1 == Err(SyncFailed)
    ensures r.1.Ok? <==> calls == Accepted
    ensures calls.readOk && calls.writeOk ==> OnlyProfileChanged(st, r.0, t.uid) && (Valid(st) ==> Valid(r.0))
    ensures calls.readOk && calls.writeOk ==> var u, prev := GetUser(r.0, t.uid), GetUser(st, t.uid);
      && u.Some?
      && (calls.rereadOk ==> r.1 == Ok(u.value))
      && u.value.userId == t.uid
      && u.value.isActive
      && u.value.email == OrElse(t.email.GetOr(""), if prev.Some? then prev.value.email else "")
      && u.value.displayName == OrElse(t.name.GetOr(""), if prev.Some? then prev.value.displayName else "")
      && u.value.fcmToken == OrElse(fcmToken.GetOr(""), if prev.Some? then prev.value.fcmToken else "")
      && u.value.lastSyncTimestamp == (if prev.Some? then prev.value.lastSyncTimestamp else 0)
    ensures calls.readOk && calls.writeOk ==> var p, q := ProfileOf(st, t.uid), r.0.profiles[t.uid];
      && q.youtubeRefreshToken == p.youtubeRefreshToken
      && q.isInitialized == p.isInitialized
      && q.baselineVideoIds == p.baselineVideoIds
  {
    if !(calls.readOk && calls.writeOk) then (st, Err(SyncFailed))
    else
      var st' := CreateOrUpdateUser(st, t.uid, SyncPatch(t, fcmToken, GetUser(st, t.uid)), 0);
      (st', if calls.rereadOk then Ok(GetUser(st', t.uid).value) else Err(SyncFailed))
  }

  /** The answer of the combined verify-and-sync entry point. */
  datatype SyncResponse = SyncResponse(
    success: bool,
    user: Option<User>,
    hasYouTubePermissions: Option<bool>,
    error: Option<string>)

  const TokenRejected: string := "Token Firebase invalide ou expiré"
  const PermissionsMissing: string := "Permissions YouTube manquantes"

  /** `verifyAndSyncUser`: `verified` is the decoded token, or none when
      verification failed; a token without YouTube permissions is refused
      before anything is written; otherwise the sync runs with `calls`. */
  function VerifyAndSyncUser(st: Store, verified: Option<DecodedToken>, fcmToken: Option<string>, calls: SyncCalls): (r: (Store, SyncResponse))
    ensures r.1.success <==> verified.Some? && HasYouTubePermissions(verified.value) && calls == Accepted
    ensures !r.1.success ==> r.1.user.None? && r.1.error.Some?
    ensures verified.None? ==> r == (st, SyncResponse(false, None, None, Some(TokenRejected)))
    ensures verified.Some? && !HasYouTubePermissions(verified.value) ==>
      r == (st, SyncResponse(false, None, Some(false), Some(PermissionsMissing)))
    ensures verified.Some? && HasYouTubePermissions(verified.value) ==>
      r.0 == SyncUserWithDatabase(st, verified.value, fcmToken, calls).0
    ensures verified.Some? && HasYouTubePermissions(verified.value) && calls != Accepted ==>
      r.1 == SyncResponse(false, None, None, Some(SyncFailed))
    ensures r.1.success ==>
      && r.1.hasYouTubePermissions == Some(true)
      && r.1.error.None?
      && r.1.user == Some(SyncUserWithDatabase(st, verified.value, fcmToken, calls).1.value)
  {
    if verified.None? then (st, SyncResponse(false, None, None, Some(TokenRejected)))
    else
      var t := verified.value;
      if !HasYouTubePermissions(t) then (st, SyncResponse(false, None, Some(false), Some(PermissionsMissing)))
      else
        var s := SyncUserWithDatabase(st, t, fcmToken, calls);
        match s.1
        case Err(e) => (s.0, SyncResponse(false, None, None, Some(e)))
        case Ok(u) => (s.0, SyncResponse(true, Some(u), Some(true), None))
  }

  /** A failed read-back still leaves the synced profile stored: the sign-in
      is refused although the user was written and reactivated. */
  lemma {:induction false} FailedRereadKeepsWrite(st: Store, t: DecodedToken, fcmToken: Option<string>)
    requires HasYouTubePermissions(t)
    ensures var r := VerifyAndSyncUser(st, Some(t), fcmToken, SyncCalls(true, true, false));
      && !r.1.success
      && r.1.error == Some(SyncFailed)
      && r.0 == SyncUserWithDatabase(st, t, fcmToken, Accepted).0
      && t.uid in r.0.profiles && ActiveProfile(r.0.profiles[t.uid])
  {
  }

  const DeactivateFailed: string := "Impossible de désactiver l'utilisateur"
  const TokenUpdateFailed: string := "Impossible de mettre à jour le token FCM"

  /** `deactivateUser`: the merge-write of `isActive = false`; a rejected
      write is reported. */
  function DeactivateUser(st: Store, userId: string, writeOk: bool, now: int): (r: (Store, Outcome))
    ensures !writeOk ==> r == (st, Fail(DeactivateFailed))
    ensures writeOk ==>
      && r.1 == Pass
      && OnlyProfileChanged(st, r.0, userId)
      && r.0.profiles[userId].isActive == Some(false)
      && r.0.profiles[userId].lastSyncTimestamp == Some(now)
      && Notify.SameFieldsBut(r.0.profiles[userId], ProfileOf(st, userId))
  {
    if writeOk then (CreateOrUpdateUser(st, userId, NoFields.(isActive := Some(false)), now), Pass)
    else (st, Fail(DeactivateFailed))
  }

  /** `updateFCMToken`: the merge-write of a new device token. */
  function UpdateFCMToken(st: Store, userId: string, fcmToken: string, writeOk: bool, now: int): (r: (Store, Outcome))
    ensures !writeOk ==> r == (st, Fail(TokenUpdateFailed))
    ensures writeOk ==> r.1 == Pass && OnlyProfileChanged(st, r.0, userId)
    ensures writeOk ==> var p, q := ProfileOf(st, userId), r.0.profiles[userId];
      && q.fcmToken == Some(fcmToken)
      && q.lastSyncTimestamp == Some(now)
      && q.email == p.email && q.displayName == p.displayName && q.isActive == p.isActive
      && q.youtubeRefreshToken == p.youtubeRefreshToken
      && q.isInitialized == p.isInitialized && q.baselineVideoIds == p.baselineVideoIds
  {
    if writeOk then (CreateOrUpdateUser(st, userId, NoFields.(fcmToken := Some(fcmToken)), now), Pass)
    else (st, Fail(TokenUpdateFailed))
  }

  /** `isUserActiveAndValid`: the user exists, is active and has a device
      token; a failed read answers false. */
  function IsUserActiveAndValid(st: Store, userId: string, readOk: bool): (r: bool)
    ensures !readOk ==> !r
    ensures r ==> userId in st.profiles && ActiveProfile(st.profiles[userId])
  {
    readOk && GetUser(st, userId).Some? && GetUser(st, userId).value.isActive && |GetUser(st, userId).value.fcmToken| > 0
  }

  /** The sign-in check and the dispatcher's guard agree: a user is valid
      exactly when a notification would be sent to it. */
  lemma {:induction false} ValidIffReachable(st: Store, userId: string)
    ensures IsUserActiveAndValid(st, userId, true) <==> Notify.Reachable(st, userId)
  {
  }

  /** A sync with YouTube permissions reactivates a deactivated user, and
      the user is listed among the active ones again. */
  lemma {:induction false} SyncReactivates(st: Store, t: DecodedToken, fcmToken: Option<string>, now: int)
    requires Valid(st) && t.uid in st.userRefs
    ensures var st1 := DeactivateUser(st, t.uid, true, now).0;
      && t.uid !in ActiveIds(st1)
      && t.uid in ActiveIds(SyncUserWithDatabase(st1, t, fcmToken, Accepted).0)
  {
  }

  /** Syncing after a deactivation gives the same user as syncing without
      it, except that the sync time kept is the deactivation's. */
  lemma {:induction false} DeactivateThenSync(st: Store, t: DecodedToken, fcmToken: Option<string>, now: int)
    ensures var st1 := DeactivateUser(st, t.uid, true, now).0;
      var u1 := SyncUserWithDatabase(st1, t, fcmToken, Accepted).1.value;
      var u0 := SyncUserWithDatabase(st, t, fcmToken, Accepted).1.value;
      && u1 == u0.(lastSyncTimestamp := now)
  {
  }

  /** A second identical sync changes nothing. */
  lemma {:induction false} SyncIdempotent(st: Store, t: DecodedToken, fcmToken: Option<string>)
    ensures var st1 := SyncUserWithDatabase(st, t, fcmToken, Accepted).0;
      SyncUserWithDatabase(st1, t, fcmToken, Accepted) == SyncUserWithDatabase(st, t, fcmToken, Accepted)
  {
    var st1 := SyncUserWithDatabase(st, t, fcmToken, Accepted).0;
    var patch := SyncPatch(t, fcmToken, GetUser(st, t.uid));
    assert st1 == CreateOrUpdateUser(st, t.uid, patch, 0);
    assert SyncPatch(t, fcmToken, GetUser(st1, t.uid)) == patch;
    assert Merge(ProfileOf(st1, t.uid), patch, 0) == ProfileOf(st1, t.uid);
    assert t.uid in st1.userRefs && t.uid in st1.profiles;
    assert CreateOrUpdateUser(st1, t.uid, patch, 0) == st1;
  }

  /** A new device token makes an active user valid, and a later sync that
      brings no token of its own keeps it. */
  lemma {:induction false} TokenUpdateThenSync(st: Store, userId: string, fcmToken: string, now: int, t: DecodedToken)
    requires fcmToken != "" && t.uid == userId
    requires userId in st.profiles && ActiveProfile(st.profiles[userId])
    ensures var st1 := UpdateFCMToken(st, userId, fcmToken, true, now).0;
      && IsUserActiveAndValid(st1, userId, true)
      && SyncUserWithDatabase(st1, t, None, Accepted).1.value.fcmToken == fcmToken
  {
  }
}
