/** The push-notification dispatcher: one summary message per user and
    batch, a guard on the stored user, deactivation of users whose device
    token the transport declares invalid, a bounded retry helper, a token
    clean-up pass and token statistics. The transport itself is an input:
    the outcome of each send is given. */
module Notify {
  import opened Wrappers
  import opened Strings
  import opened Types
  import opened Store
  import Config
  import Seqs

  /** A value caught by a `catch`: an `Error` with its message, or anything else. */
  datatype Thrown = ErrorWith(message: string) | NonError

  /** The text reported for a caught value that is not an `Error`. */
  const UnknownError: string := "Erreur inconnue"

  /** The message of an `Error`, or `UnknownError`. */
  function ErrorText(t: Thrown): (m: string)
    ensures t.ErrorWith? ==> m == t.message
    ensures t.NonError? ==> m == UnknownError
  {
    match t
    case ErrorWith(msg) => msg
    case NonError => UnknownError
  }

  /** The outcome of one transport send: the message id, or what the send
      threw; the 10 s timeout throws `ErrorWith(SendTimeout)`. */
  datatype SendOutcome = Delivered(messageId: string) | Rejected(thrown: Thrown)

  /** The error a send that does not answer within 10 s throws. */
  const SendTimeout: string := "Timeout FCM après 10s"

  /** The data part of the message; the ids are kept as a list rather than
      their JSON text. */
  datatype MessageData = MessageData(kind: string, videoIds: seq<string>, count: string, title: string, body: string)

  datatype Message = Message(token: string, data: MessageData)

  const NewLikesKind: string := "new_likes"
  const NotificationTitle: string := "Nouvelles musiques disponibles !"
  const SingleSuffix: string := "\" est prêt à télécharger"
  const PluralSuffix: string := " nouvelles musiques à télécharger"

  /** The body: the quoted title of a single video, or the number of videos. */
  function Body(videos: seq<LikedVideo>): string {
    if |videos| == 1 then "\"" + videos[0].title + SingleSuffix
    else NatToString(|videos|) + PluralSuffix
  }

  /** The one message summarising a batch of videos for a device token. */
  function BuildMessage(token: string, videos: seq<LikedVideo>): (m: Message)
    ensures m.token == token
    ensures m.data.kind == NewLikesKind && m.data.title == NotificationTitle
    ensures m.data.videoIds == VideoIds(videos)
    ensures m.data.count == NatToString(|videos|)
    ensures |videos| == 1 ==> m.data.body == "\"" + videos[0].title + SingleSuffix
    ensures |videos| != 1 ==> m.data.body == NatToString(|videos|) + PluralSuffix
  {
    var count := NatToString(|videos|);
    Message(token, MessageData(NewLikesKind, VideoIds(videos), count, NotificationTitle, Body(videos)))
  }

  /** The result of one send attempt to a user. */
  datatype SendResult = SendResult(
    success: bool,
    userId: string,
    videoIds: seq<string>,
    messageId: Option<string>,
    error: Option<string>)

  /** The error reported, without a send, for a missing, token-less or
      inactive user. */
  const UserUnavailable: string := "Utilisateur introuvable ou token FCM manquant"
  const UnregisteredMarker: string := "registration-token-not-registered"
  const InvalidTokenMarker: string := "invalid-registration-token"

  /** The transport declared the device token permanently invalid. */
  predicate InvalidToken(t: Thrown) {
    t.ErrorWith? && (Contains(t.message, UnregisteredMarker) || Contains(t.message, InvalidTokenMarker))
  }

  /** `markUserAsInactive`: the merge-write of `isActive = false`; a rejected
      write is swallowed and leaves the store as it was. */
  function MarkUserAsInactive(st: Store, userId: string, writeOk: bool, now: int): (st': Store)
    ensures !writeOk ==> st' == st
    ensures writeOk ==>
      && OnlyProfileChanged(st, st', userId)
      && st'.profiles[userId].isActive == Some(false)
      && SameFieldsBut(st'.profiles[userId], ProfileOf(st, userId))
  {
    if writeOk then CreateOrUpdateUser(st, userId, NoFields.(isActive := Some(false)), now) else st
  }

  /** Every field but the active flag and the sync time is kept. */
  predicate SameFieldsBut(a: Profile, b: Profile) {
    a.email == b.email && a.displayName == b.displayName && a.fcmToken == b.fcmToken
    && a.youtubeRefreshToken == b.youtubeRefreshToken
    && a.isInitialized == b.isInitialized && a.baselineVideoIds == b.baselineVideoIds
  }

  /** One dispatch: the store afterwards, the result and the message handed
      to the transport, if one was. */
  datatype Dispatch = Dispatch(store: Store, result: SendResult, sent: Option<Message>)

  /** The user can be notified: it exists, has a device token and is active. */
  predicate Reachable(st: Store, userId: string) {
    var u := GetUser(st, userId);
    u.Some? && u.value.fcmToken != "" && u.value.isActive
  }

  /** `sendNotificationToUser`: the read of the user (accepted as `readOk`
      says), the guard, the message, the send with its outcome `send`, and
      the deactivation of a user whose token the transport rejects as
      invalid (the write accepted as `writeOk` says). A failed read is
      caught like a failed send: nothing is sent or written and its message
      is the error. */
  function SendNotificationToUser(st: Store, userId: string, videos: seq<LikedVideo>, readOk: bool,
                                  send: SendOutcome, writeOk: bool, now: int): (d: Dispatch)
    ensures d.result.userId == userId && d.result.videoIds == VideoIds(videos)
    ensures !readOk ==> d == Dispatch(st, SendResult(false, userId, VideoIds(videos), None, Some(UserReadFailed)), None)
    ensures d.sent.None? <==> !readOk || !Reachable(st, userId)
    ensures readOk && d.sent.None? ==> d.store == st && d.result == SendResult(false, userId, VideoIds(videos), None, Some(UserUnavailable))
    ensures d.sent.Some? ==> d.sent.value == BuildMessage(GetUser(st, userId).value.fcmToken, videos)
    ensures d.result.success <==> d.sent.Some? && send.Delivered?
    ensures d.result.success ==> d.result.messageId == Some(send.messageId) && d.result.error.None? && d.store == st
    ensures d.sent.Some? && send.Rejected? ==>
      && d.result.error == Some(ErrorText(send.thrown))
      && d.result.messageId.None?
      && d.store == MarkUserAsInactive(st, userId, InvalidToken(send.thrown) && writeOk, now)
  {
    var ids := VideoIds(videos);
    if !readOk then
      Dispatch(st, SendResult(false, userId, ids, None, Some(UserReadFailed)), None)
    else if !Reachable(st, userId) then
      Dispatch(st, SendResult(false, userId, ids, None, Some(UserUnavailable)), None)
    else
      var m := BuildMessage(GetUser(st, userId).value.fcmToken, videos);
      match send
      case Delivered(id) => Dispatch(st, SendResult(true, userId, ids, Some(id), None), Some(m))
      case Rejected(t) =>
        var st' := if InvalidToken(t) then MarkUserAsInactive(st, userId, writeOk, now) else st;
        Dispatch(st', SendResult(false, userId, ids, None, Some(ErrorText(t))), Some(m))
  }

  /** A user whose token was rejected as invalid, and deactivated, is not
      sent anything again. */
  lemma {:induction false} InvalidTokenStopsSends(st: Store, userId: string, videos: seq<LikedVideo>, t: Thrown, now: int,
                               videos': seq<LikedVideo>, readOk': bool, send': SendOutcome, writeOk': bool, later: int)
    requires Reachable(st, userId) && InvalidToken(t)
    ensures var d := SendNotificationToUser(st, userId, videos, true, Rejected(t), true, now);
      && !d.result.success
      && !Reachable(d.store, userId)
      && SendNotificationToUser(d.store, userId, videos', readOk', send', writeOk', later).sent.None?
  {
  }

  /** A rejection that does not declare the token invalid (a timeout, say)
      keeps the user reachable. */
  lemma {:induction false} OtherRejectionKeepsUser(st: Store, userId: string, videos: seq<LikedVideo>, t: Thrown, writeOk: bool, now: int)
    requires Reachable(st, userId) && !InvalidToken(t)
    ensures var d := SendNotificationToUser(st, userId, videos, true, Rejected(t), writeOk, now);
      && d.store == st && Reachable(d.store, userId) && d.result.error == Some(ErrorText(t))
  {
  }

  /** The outside world of one dispatch in a batch: whether the user read
      succeeds, the send outcome, and whether a deactivation write succeeds. */
  datatype Attempt = Attempt(readOk: bool, send: SendOutcome, writeOk: bool)

  /** `sendNotificationsToUsers`: one dispatch per map entry, in the map's
      order, the store threaded through; `attempts(i)` is the outside world
      of the i-th dispatch. */
  function SendNotificationsToUsers(st: Store, entries: seq<(string, seq<LikedVideo>)>,
                                    attempts: nat -> Attempt, now: int): (r: (Store, seq<SendResult>))
    ensures |r.1| == |entries|
    ensures forall i :: 0 <= i < |entries| ==>
      r.1[i].userId == entries[i].0 && r.1[i].videoIds == VideoIds(entries[i].1)
    decreases |entries|
  {
    if |entries| == 0 then (st, [])
    else
      var n := |entries| - 1;
      var prev := SendNotificationsToUsers(st, entries[..n], attempts, now);
      var d := SendNotificationToUser(prev.0, entries[n].0, entries[n].1, attempts(n).readOk, attempts(n).send, attempts(n).writeOk, now);
      (d.store, prev.1 + [d.result])
  }

  /** The number of successful sends of a batch. */
  function Sent(results: seq<SendResult>): nat
    decreases |results|
  {
    if |results| == 0 then 0 else Sent(results[..|results| - 1]) + (if results[|results| - 1].success then 1 else 0)
  }

  /** A batch reports at most one success per entry, and a success only for
      an entry whose send was delivered. */
  lemma {:induction false} BatchSuccesses(st: Store, entries: seq<(string, seq<LikedVideo>)>, attempts: nat -> Attempt, now: int)
    ensures var r := SendNotificationsToUsers(st, entries, attempts, now);
      && Sent(r.1) <= |entries|
      && forall i :: 0 <= i < |entries| && r.1[i].success ==> attempts(i).send.Delivered?
    decreases |entries|
  {
    if |entries| > 0 {
      var n := |entries| - 1;
      BatchSuccesses(st, entries[..n], attempts, now);
      var r := SendNotificationsToUsers(st, entries, attempts, now);
      var prev := SendNotificationsToUsers(st, entries[..n], attempts, now);
      var d := SendNotificationToUser(prev.0, entries[n].0, entries[n].1, attempts(n).readOk, attempts(n).send, attempts(n).writeOk, now);
      assert r.1 == prev.1 + [d.result];
      assert d.result.success ==> attempts(n).send.Delivered?;
      assert Sent(r.1) == Sent(prev.1) + (if d.result.success then 1 else 0) by {
        assert r.1[..n] == prev.1;
      }
      forall i | 0 <= i < |entries| && r.1[i].success ensures attempts(i).send.Delivered? {
        if i < n {
          assert r.1[i] == prev.1[i];
        }
      }
    }
  }

  /** The users a batch addresses. */
  function BatchUsers(entries: seq<(string, seq<LikedVideo>)>): set<string> {
    set i | 0 <= i < |entries| :: entries[i].0
  }

  /** No user appears twice in a batch, as in the keys of a `Map`. */
  predicate DistinctUsers(entries: seq<(string, seq<LikedVideo>)>) {
    forall i, j :: 0 <= i < j < |entries| ==> entries[i].0 != entries[j].0
  }

  /** Both stores hold the same profile document, or none, for this user. */
  predicate SameProfile(a: Store, b: Store, userId: string) {
    (userId in a.profiles <==> userId in b.profiles) && ProfileOf(a, userId) == ProfileOf(b, userId)
  }

  /** The i-th entry of a batch dispatched on its own against `st`. */
  function Alone(st: Store, entries: seq<(string, seq<LikedVideo>)>, attempts: nat -> Attempt, now: int, i: nat): Dispatch
    requires i < |entries|
  {
    SendNotificationToUser(st, entries[i].0, entries[i].1, attempts(i).readOk, attempts(i).send, attempts(i).writeOk, now)
  }

  /** A dispatch touches no record and no other user's profile. */
  lemma {:induction false} DispatchFrame(st: Store, userId: string, videos: seq<LikedVideo>, readOk: bool,
                                         send: SendOutcome, writeOk: bool, now: int)
    ensures var d := SendNotificationToUser(st, userId, videos, readOk, send, writeOk, now);
      && d.store.downloads == st.downloads
      && forall other | other != userId :: SameProfile(d.store, st, other)
  {
  }

  /** A dispatch reads and writes only its own user's profile: two stores
      that agree on it give the same result and agree on it afterwards. */
  lemma {:induction false} DispatchLocal(st: Store, st': Store, userId: string, videos: seq<LikedVideo>, readOk: bool,
                                         send: SendOutcome, writeOk: bool, now: int)
    requires SameProfile(st, st', userId)
    ensures var d, d' := SendNotificationToUser(st, userId, videos, readOk, send, writeOk, now),
                         SendNotificationToUser(st', userId, videos, readOk, send, writeOk, now);
      d.result == d'.result && SameProfile(d.store, d'.store, userId)
  {
    assert GetUser(st, userId) == GetUser(st', userId);
  }

  /** The users of a batch's first `n` entries are users of the batch, and
      with distinct users the next entry's user is not among them. */
  lemma {:induction false} FrontUsers(entries: seq<(string, seq<LikedVideo>)>, n: nat)
    requires n < |entries|
    ensures BatchUsers(entries[..n]) <= BatchUsers(entries)
    ensures DistinctUsers(entries) ==> entries[n].0 !in BatchUsers(entries[..n])
  {
    var front := entries[..n];
    forall x | x in BatchUsers(front) ensures x in BatchUsers(entries) {
      var j :| 0 <= j < n && front[j].0 == x;
      assert entries[j].0 == x;
    }
    if DistinctUsers(entries) {
      forall j | 0 <= j < n ensures front[j].0 != entries[n].0 {
        assert front[j] == entries[j];
      }
    }
  }

  /** A batch touches no record and no profile of a user it does not
      address. */
  lemma {:induction false} BatchFrame(st: Store, entries: seq<(string, seq<LikedVideo>)>, attempts: nat -> Attempt, now: int)
    ensures var r := SendNotificationsToUsers(st, entries, attempts, now);
      && r.0.downloads == st.downloads
      && forall id | id !in BatchUsers(entries) :: SameProfile(r.0, st, id)
    decreases |entries|
  {
    if |entries| > 0 {
      var n := |entries| - 1;
      var front := entries[..n];
      BatchFrame(st, front, attempts, now);
      var prev := SendNotificationsToUsers(st, front, attempts, now);
      DispatchFrame(prev.0, entries[n].0, entries[n].1, attempts(n).readOk, attempts(n).send, attempts(n).writeOk, now);
      FrontUsers(entries, n);
    }
  }

  /** In a batch over distinct users, the i-th entry gets the result its
      dispatch would get alone against the starting store, and its user
      ends with the profile that dispatch would leave. */
  lemma {:induction false} BatchEntry(st: Store, entries: seq<(string, seq<LikedVideo>)>, attempts: nat -> Attempt, now: int, i: nat)
    requires DistinctUsers(entries) && i < |entries|
    ensures var r, a := SendNotificationsToUsers(st, entries, attempts, now), Alone(st, entries, attempts, now, i);
      r.1[i] == a.result && SameProfile(r.0, a.store, entries[i].0)
    decreases |entries|
  {
    var n := |entries| - 1;
    var front := entries[..n];
    var prev := SendNotificationsToUsers(st, front, attempts, now);
    var (u, vs) := entries[n];
    var d := SendNotificationToUser(prev.0, u, vs, attempts(n).readOk, attempts(n).send, attempts(n).writeOk, now);
    assert SendNotificationsToUsers(st, entries, attempts, now) == (d.store, prev.1 + [d.result]);
    if i < n {
      assert DistinctUsers(front);
      BatchEntry(st, front, attempts, now, i);
      assert front[i] == entries[i];
      assert Alone(st, front, attempts, now, i) == Alone(st, entries, attempts, now, i);
      assert entries[i].0 != u;
      DispatchFrame(prev.0, u, vs, attempts(n).readOk, attempts(n).send, attempts(n).writeOk, now);
    } else {
      BatchFrame(st, front, attempts, now);
      FrontUsers(entries, n);
      DispatchLocal(prev.0, st, u, vs, attempts(n).readOk, attempts(n).send, attempts(n).writeOk, now);
    }
  }

  /** A batch over distinct users does what its dispatches would each do
      alone against the starting store: the i-th result is that dispatch's
      result (a success exactly for a delivered send to a readable,
      reachable user), each addressed user ends with that dispatch's
      profile, no record changes and no other user is touched. */
  lemma {:induction false} BatchDispatches(st: Store, entries: seq<(string, seq<LikedVideo>)>, attempts: nat -> Attempt, now: int)
    requires DistinctUsers(entries)
    ensures var r := SendNotificationsToUsers(st, entries, attempts, now);
      && r.0.downloads == st.downloads
      && (forall id | id !in BatchUsers(entries) :: GetUser(r.0, id) == GetUser(st, id))
      && (forall i | 0 <= i < |entries| ::
            && r.1[i] == Alone(st, entries, attempts, now, i).result
            && SameProfile(r.0, Alone(st, entries, attempts, now, i).store, entries[i].0)
            && (r.1[i].success <==> attempts(i).readOk && Reachable(st, entries[i].0) && attempts(i).send.Delivered?))
  {
    var r := SendNotificationsToUsers(st, entries, attempts, now);
    BatchFrame(st, entries, attempts, now);
    forall id | id !in BatchUsers(entries) ensures GetUser(r.0, id) == GetUser(st, id) {
      assert SameProfile(r.0, st, id);
    }
    forall i | 0 <= i < |entries|
      ensures r.1[i] == Alone(st, entries, attempts, now, i).result
      ensures SameProfile(r.0, Alone(st, entries, attempts, now, i).store, entries[i].0)
    {
      BatchEntry(st, entries, attempts, now, i);
    }
  }

  /** The error `sendWithRetry` throws when no attempt was made. */
  const RetriesExhausted: string := "Échec après toutes les tentatives"

  /** `sendWithRetry`: up to `maxRetries` sends, `outcome(k)` being the
      outcome of attempt `k` (from 1), stopping at the first delivery;
      after a failed attempt `k` that is not the last the helper waits
      `retryDelay * k` ms, and `delays` lists those waits in order. When
      every attempt fails, the last attempt's error is the result. */
  method SendWithRetry(outcome: nat -> SendOutcome, maxRetries: int, retryDelay: int)
    returns (r: Result<string>, attempts: nat, delays: seq<int>)
    ensures maxRetries < 1 ==> attempts == 0 && r == Err(RetriesExhausted)
    ensures maxRetries >= 1 ==> 1 <= attempts <= maxRetries
    ensures forall k :: 1 <= k < attempts ==> outcome(k).Rejected?
    ensures r.Ok? <==> attempts >= 1 && outcome(attempts).Delivered?
    ensures r.Ok? ==> r.value == outcome(attempts).messageId
    ensures r.Err? && maxRetries >= 1 ==> attempts == maxRetries && r.error == ErrorText(outcome(attempts).thrown)
    ensures |delays| == if attempts == 0 then 0 else attempts - 1
    ensures forall i :: 0 <= i < |delays| ==> delays[i] == retryDelay * (i + 1)
  {
    attempts := 0;
    delays := [];
    var last: Option<Thrown> := None;
    var attempt := 1;
    while attempt <= maxRetries
      invariant 1 <= attempt && attempts == attempt - 1
      invariant attempt == 1 || attempt <= maxRetries + 1
      invariant forall k :: 1 <= k < attempt ==> outcome(k).Rejected?
      invariant last.Some? <==> attempt > 1
      invariant last.Some? ==> last.value == outcome(attempt - 1).thrown
      invariant |delays| == if attempt > maxRetries && attempt > 1 then attempt - 2 else attempt - 1
      invariant forall i :: 0 <= i < |delays| ==> delays[i] == retryDelay * (i + 1)
    {
      attempts := attempt;
      match outcome(attempt)
      case Delivered(id) =>
        r := Ok(id);
        return;
      case Rejected(t) =>
        last := Some(t);
        if attempt < maxRetries {
          delays := delays + [retryDelay * attempt];
        }
      attempt := attempt + 1;
    }
    r := if last.Some? then Err(ErrorText(last.value)) else Err(RetriesExhausted);
  }

  /** `sendWithRetry` with its default budget from the notification
      settings: at most three attempts, waiting 1 s and then 2 s. */
  method SendWithDefaultRetry(outcome: nat -> SendOutcome) returns (r: Result<string>, attempts: nat, delays: seq<int>)
    ensures 1 <= attempts <= 3
    ensures r.Ok? <==> outcome(attempts).Delivered?
    ensures r.Err? ==> attempts == 3 && delays == [1000, 2000] && r.error == ErrorText(outcome(3).thrown)
    ensures r.Ok? && attempts == 1 ==> delays == []
  {
    r, attempts, delays := SendWithRetry(outcome, Config.FcmMaxRetries, Config.FcmRetryDelay);
  }

  /** The user has a device token the validator rejects. */
  function Stale(isValid: string -> bool): User -> bool {
    (u: User) => u.fcmToken != "" && !isValid(u.fcmToken)
  }

  /** Ids of the users a clean-up pass over `users` marks inactive: the
      stale ones whose write is accepted. */
  function MarkedIds(users: seq<User>, isValid: string -> bool, writeOk: string -> bool): (ids: set<string>)
    ensures forall u :: u in users && Stale(isValid)(u) && writeOk(u.userId) ==> u.userId in ids
    ensures forall id :: id in ids ==> exists u :: u in users && u.userId == id && Stale(isValid)(u) && writeOk(id)
    decreases |users|
  {
    if |users| == 0 then {}
    else
      var n := |users| - 1;
      var u := users[n];
      assert users == users[..n] + [u];
      MarkedIds(users[..n], isValid, writeOk) + (if Stale(isValid)(u) && writeOk(u.userId) then {u.userId} else {})
  }

  /** The clean-up loop over a snapshot of users, the store threaded
      through: each stale user in turn is marked inactive. */
  function MarkInvalid(st: Store, users: seq<User>, isValid: string -> bool, writeOk: string -> bool, now: int): (st': Store)
    ensures st'.downloads == st.downloads
    decreases |users|
  {
    if |users| == 0 then st
    else
      var n := |users| - 1;
      var u := users[n];
      var prev := MarkInvalid(st, users[..n], isValid, writeOk, now);
      if Stale(isValid)(u) then MarkUserAsInactive(prev, u.userId, writeOk(u.userId), now) else prev
  }

  /** The clean-up loop adds a user reference only for a marked user, and
      none when every user it visits is already referenced. */
  lemma {:induction false} MarkInvalidRefs(st: Store, users: seq<User>, isValid: string -> bool, writeOk: string -> bool, now: int)
    ensures var st' := MarkInvalid(st, users, isValid, writeOk, now);
      && (forall id :: id in st'.userRefs ==> id in st.userRefs || id in MarkedIds(users, isValid, writeOk))
      && ((forall i :: 0 <= i < |users| ==> users[i].userId in st.userRefs) ==> st'.userRefs == st.userRefs)
    decreases |users|
  {
    if |users| > 0 {
      var n := |users| - 1;
      MarkInvalidRefs(st, users[..n], isValid, writeOk, now);
      assert forall i :: 0 <= i < n ==> users[..n][i] == users[i];
    }
  }

  /** The profiles of `st'` are those of `st` with exactly the `marked`
      users turned inactive, their other fields kept. */
  ghost predicate MarkedProfiles(st: Store, st': Store, marked: set<string>) {
    && (forall id :: id in marked ==>
          && id in st'.profiles
          && st'.profiles[id].isActive == Some(false)
          && SameFieldsBut(st'.profiles[id], ProfileOf(st, id)))
    && (forall id :: id !in marked ==>
          && (id in st'.profiles <==> id in st.profiles)
          && (id in st.profiles ==> st'.profiles[id] == st.profiles[id]))
  }

  /** What the clean-up loop writes: exactly the marked users become
      inactive, keeping their other fields, and every other profile is as
      it was. */
  lemma {:induction false} MarkInvalidProfiles(st: Store, users: seq<User>, isValid: string -> bool, writeOk: string -> bool, now: int)
    ensures MarkedProfiles(st, MarkInvalid(st, users, isValid, writeOk, now), MarkedIds(users, isValid, writeOk))
    decreases |users|
  {
    if |users| > 0 {
      var n := |users| - 1;
      var u := users[n];
      MarkInvalidProfiles(st, users[..n], isValid, writeOk, now);
      var prev := MarkInvalid(st, users[..n], isValid, writeOk, now);
      var before := MarkedIds(users[..n], isValid, writeOk);
      if Stale(isValid)(u) && writeOk(u.userId) {
        assert MarkInvalid(st, users, isValid, writeOk, now) == MarkUserAsInactive(prev, u.userId, true, now);
        assert MarkedIds(users, isValid, writeOk) == before + {u.userId};
        MarkOneMore(st, prev, before, u.userId, now);
      } else {
        assert MarkInvalid(st, users, isValid, writeOk, now) == prev;
        assert MarkedIds(users, isValid, writeOk) == before;
      }
    }
  }

  /** Marking one more user inactive extends the marked set by it. */
  lemma {:induction false} MarkOneMore(st: Store, prev: Store, marked: set<string>, userId: string, now: int)
    requires MarkedProfiles(st, prev, marked)
    ensures MarkedProfiles(st, MarkUserAsInactive(prev, userId, true, now), marked + {userId})
  {
    var st' := MarkUserAsInactive(prev, userId, true, now);
    forall id | id in marked + {userId}
      ensures id in st'.profiles && st'.profiles[id].isActive == Some(false)
      ensures SameFieldsBut(st'.profiles[id], ProfileOf(st, id))
    {
      if id != userId {
        assert st'.profiles[id] == prev.profiles[id];
      } else if userId !in marked {
        assert ProfileOf(prev, id) == ProfileOf(st, id);
      }
    }
    forall id | id !in marked + {userId}
      ensures id in st'.profiles <==> id in st.profiles
      ensures id in st.profiles ==> st'.profiles[id] == st.profiles[id]
    {
      assert id in st'.profiles <==> id in prev.profiles;
    }
  }

  /** `cleanupInvalidTokens`: over the active users listed at the start,
      every user with a device token the validator rejects is marked
      inactive and counted, whether or not the write is accepted; a failed
      listing yields 0 and no change. */
  function CleanupInvalidTokens(st: Store, scanOk: bool, isValid: string -> bool, writeOk: string -> bool, now: int): (r: (Store, nat))
    ensures !scanOk ==> r == (st, 0)
    ensures scanOk ==> r.1 == |Seqs.Filter(GetAllActiveUsers(st), Stale(isValid))| && r.1 <= |ActiveIds(st)|
    ensures r.0.downloads == st.downloads
  {
    if !scanOk then (st, 0)
    else
      var users := GetAllActiveUsers(st);
      (MarkInvalid(st, users, isValid, writeOk, now), |Seqs.Filter(users, Stale(isValid))|)
  }

  /** Every active user the listing returns is a referenced user. */
  lemma {:induction false} ActiveUsersReferenced(st: Store)
    ensures var users := GetAllActiveUsers(st);
      forall i :: 0 <= i < |users| ==> users[i].userId in st.userRefs
  {
    var users := GetAllActiveUsers(st);
    forall i | 0 <= i < |users| ensures users[i].userId in st.userRefs {
      assert UserIds(users)[i] in ActiveIds(st);
    }
  }

  /** The clean-up writes only the profiles of listed stale users whose
      write is accepted, turning them inactive and keeping their other
      fields; no user reference or profile is added. */
  lemma {:induction false} CleanupWrites(st: Store, scanOk: bool, isValid: string -> bool, writeOk: string -> bool, now: int)
    ensures var st' := CleanupInvalidTokens(st, scanOk, isValid, writeOk, now).0;
      && st'.userRefs == st.userRefs
      && (forall id :: id in st'.profiles <==> id in st.profiles)
      && (scanOk ==> forall id :: id in MarkedIds(GetAllActiveUsers(st), isValid, writeOk) ==>
            id in st'.profiles && st'.profiles[id].isActive == Some(false))
      && (forall id :: id in st.profiles && st'.profiles[id] != st.profiles[id] ==>
            && scanOk
            && id in MarkedIds(GetAllActiveUsers(st), isValid, writeOk)
            && st'.profiles[id].isActive == Some(false)
            && SameFieldsBut(st'.profiles[id], st.profiles[id]))
  {
    if scanOk {
      var users := GetAllActiveUsers(st);
      ActiveUsersReferenced(st);
      MarkInvalidRefs(st, users, isValid, writeOk, now);
      MarkInvalidProfiles(st, users, isValid, writeOk, now);
      forall id | id in MarkedIds(users, isValid, writeOk) ensures id in st.profiles {
        var u :| u in users && u.userId == id && Stale(isValid)(u) && writeOk(id);
      }
    }
  }

  /** With every write accepted, no active user is left with a token the
      validator rejects. */
  lemma {:induction false} CleanupLeavesValidTokens(st: Store, isValid: string -> bool, writeOk: string -> bool, now: int)
    requires forall id :: writeOk(id)
    ensures var st' := CleanupInvalidTokens(st, true, isValid, writeOk, now).0;
      forall u :: u in GetAllActiveUsers(st') ==> !Stale(isValid)(u)
  {
    var st' := CleanupInvalidTokens(st, true, isValid, writeOk, now).0;
    var users, users' := GetAllActiveUsers(st), GetAllActiveUsers(st');
    CleanupWrites(st, true, isValid, writeOk, now);
    forall u | u in users' ensures !Stale(isValid)(u) {
      var id := u.userId;
      ListedUserActive(st', u);
      assert id !in MarkedIds(users, isValid, writeOk);
      assert st'.profiles[id] == st.profiles[id];
      ActiveUserListed(st, id);
    }
  }

  /** A second clean-up right after one whose writes were all accepted
      finds nothing to clean. */
  lemma {:induction false} CleanupTwiceCountsZero(st: Store, isValid: string -> bool, writeOk: string -> bool, now: int,
                               writeOk': string -> bool, later: int)
    requires forall id :: writeOk(id)
    ensures var st' := CleanupInvalidTokens(st, true, isValid, writeOk, now).0;
      CleanupInvalidTokens(st', true, isValid, writeOk', later).1 == 0
  {
    var st' := CleanupInvalidTokens(st, true, isValid, writeOk, now).0;
    CleanupLeavesValidTokens(st, isValid, writeOk, now);
    Seqs.FilterNone(GetAllActiveUsers(st'), Stale(isValid));
  }

  /** Notification counters; only the device-token count is computed, the
      others are always zero. */
  datatype FcmStats = FcmStats(totalSent: nat, successfulSent: nat, failedSent: nat, activeTokens: nat)

  /** The user has a device token. */
  predicate HasDevice(u: User) {
    |u.fcmToken| > 0
  }

  /** `getFCMStats`: the number of active users with a device token; a
      failed listing yields all zeros. */
  function GetFCMStats(st: Store, scanOk: bool): (s: FcmStats)
    ensures s.totalSent == 0 && s.successfulSent == 0 && s.failedSent == 0
    ensures !scanOk ==> s.activeTokens == 0
    ensures s.activeTokens <= |ActiveIds(st)|
  {
    if !scanOk then FcmStats(0, 0, 0, 0)
    else FcmStats(0, 0, 0, |Seqs.Filter(GetAllActiveUsers(st), HasDevice)|)
  }

  /** The listed users a notification would reach. */
  function ReachableIn(st: Store): string -> bool {
    id => Reachable(st, id)
  }

  /** The listed active users whose device token the validator rejects. */
  function StaleIn(st: Store, isValid: string -> bool): string -> bool {
    id => ActiveId(st, id) && Stale(isValid)(ReadUser(id, st.profiles[id]))
  }

  /** The token count is the number of listed users that
      `SendNotificationToUser` would send to. */
  lemma {:induction false} ActiveTokensReachable(st: Store)
    ensures GetFCMStats(st, true).activeTokens == |Seqs.Filter(st.userRefs, ReachableIn(st))|
  {
    var users, ids := GetAllActiveUsers(st), ActiveIds(st);
    assert ids == Seqs.Filter(st.userRefs, id => ActiveId(st, id));
    forall i | 0 <= i < |users| ensures HasDevice(users[i]) == ReachableIn(st)(ids[i]) {
      assert UserIds(users)[i] == ids[i];
    }
    Seqs.FilterCountCorresponding(users, HasDevice, ids, ReachableIn(st));
    Seqs.FilterFilter(st.userRefs, id => ActiveId(st, id), ReachableIn(st), ReachableIn(st));
  }

  /** The clean-up count is the number of listed stale active users. */
  lemma {:induction false} CleanedCount(st: Store, isValid: string -> bool, writeOk: string -> bool, now: int)
    ensures CleanupInvalidTokens(st, true, isValid, writeOk, now).1 == |Seqs.Filter(st.userRefs, StaleIn(st, isValid))|
  {
    var users, ids := GetAllActiveUsers(st), ActiveIds(st);
    assert ids == Seqs.Filter(st.userRefs, id => ActiveId(st, id));
    forall i | 0 <= i < |users| ensures Stale(isValid)(users[i]) == StaleIn(st, isValid)(ids[i]) {
      assert UserIds(users)[i] == ids[i];
    }
    Seqs.FilterCountCorresponding(users, Stale(isValid), ids, StaleIn(st, isValid));
    Seqs.FilterFilter(st.userRefs, id => ActiveId(st, id), StaleIn(st, isValid), StaleIn(st, isValid));
  }

  /** A stale active user is one a notification would reach. */
  lemma {:induction false} StaleIsReachable(st: Store, isValid: string -> bool, id: string)
    ensures StaleIn(st, isValid)(id) ==> ReachableIn(st)(id)
  {
    assert ReachableIn(st)(id) == Reachable(st, id);
    if ActiveId(st, id) {
      var u := ReadUser(id, st.profiles[id]);
      assert StaleIn(st, isValid)(id) == Stale(isValid)(u);
      assert Stale(isValid)(u) ==> u.fcmToken != "";
      assert GetUser(st, id) == Some(u);
    }
  }

  /** A listed active stale user is among the marked ones when every write
      is accepted, and conversely. */
  lemma {:induction false} MarkedIffStale(st: Store, isValid: string -> bool, writeOk: string -> bool, id: string)
    requires forall id :: writeOk(id)
    requires id in st.userRefs
    ensures id in MarkedIds(GetAllActiveUsers(st), isValid, writeOk) <==> StaleIn(st, isValid)(id)
  {
    var users := GetAllActiveUsers(st);
    if id in MarkedIds(users, isValid, writeOk) {
      var u :| u in users && u.userId == id && Stale(isValid)(u) && writeOk(id);
      ListedUserActive(st, u);
    }
    if StaleIn(st, isValid)(id) {
      ActiveUserListed(st, id);
    }
  }

  /** After a clean-up whose writes are all accepted, a listed user is
      reachable exactly when it was and was not cleaned. */
  lemma {:induction false} CleanupReachable(st: Store, isValid: string -> bool, writeOk: string -> bool, now: int, id: string)
    requires forall id :: writeOk(id)
    requires id in st.userRefs
    ensures var st' := CleanupInvalidTokens(st, true, isValid, writeOk, now).0;
      ReachableIn(st')(id) == (ReachableIn(st)(id) && !StaleIn(st, isValid)(id))
  {
    var st' := CleanupInvalidTokens(st, true, isValid, writeOk, now).0;
    CleanupWrites(st, true, isValid, writeOk, now);
    MarkedIffStale(st, isValid, writeOk, id);
    if !StaleIn(st, isValid)(id) {
      assert id in st'.profiles ==> st'.profiles[id] == st.profiles[id];
      assert GetUser(st', id) == GetUser(st, id);
    }
  }

  /** With every write accepted, the clean-up lowers the device-token count
      by exactly the number it reports. */
  lemma {:induction false} CleanupLowersTokenCount(st: Store, isValid: string -> bool, writeOk: string -> bool, now: int)
    requires forall id :: writeOk(id)
    ensures var r := CleanupInvalidTokens(st, true, isValid, writeOk, now);
      GetFCMStats(r.0, true).activeTokens + r.1 == GetFCMStats(st, true).activeTokens
  {
    var st' := CleanupInvalidTokens(st, true, isValid, writeOk, now).0;
    CleanupWrites(st, true, isValid, writeOk, now);
    ActiveTokensReachable(st);
    ActiveTokensReachable(st');
    CleanedCount(st, isValid, writeOk, now);
    forall i | 0 <= i < |st.userRefs|
      ensures StaleIn(st, isValid)(st.userRefs[i]) ==> ReachableIn(st)(st.userRefs[i])
      ensures ReachableIn(st')(st.userRefs[i]) == (ReachableIn(st)(st.userRefs[i]) && !StaleIn(st, isValid)(st.userRefs[i]))
    {
      StaleIsReachable(st, isValid, st.userRefs[i]);
      CleanupReachable(st, isValid, writeOk, now, st.userRefs[i]);
    }
    Seqs.FilterCountSplit(st.userRefs, ReachableIn(st), StaleIn(st, isValid), ReachableIn(st'));
  }
}
