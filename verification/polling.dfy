/** One polling cycle (`checkAllUsersForNewLikes`): every active user is run
    through the baseline tracker; a non-empty diff is filtered, checked
    against the existing download records, reported in a per-user map and
    recorded as pending downloads, and the user's sync time is refreshed.
    A failure while handling one user is caught and the loop goes on. */
module Polling {
  import opened Wrappers
  import opened Types
  import opened Videos
  import opened Store
  import opened Baseline
  import Seqs

  /** What the outside world does during one user's turn: the listing fetch,
      whether the tracker's own profile write is accepted, and the number of
      the first store call after the diff that throws, if one does. Those
      calls are numbered in the order they are made: one existence check per
      filtered like, then one record creation per unique like, then the
      sync-time update. */
  datatype UserRun = UserRun(fetch: Fetch, writeOk: bool, fault: Option<nat>)

  /** A turn in which no store call after the diff throws. */
  const NoFault: Option<nat> := None

  /** The video has no download record for this user. */
  function Unrecorded(st: Store, userId: string): LikedVideo -> bool {
    (v: LikedVideo) => !HasRecord(st.downloads, userId, v.videoId)
  }

  /** The filtered likes that have no download record yet, in order. */
  function UniqueLikes(st: Store, userId: string, valid: seq<LikedVideo>): (r: seq<LikedVideo>)
    ensures forall v :: v in r <==> v in valid && !HasRecord(st.downloads, userId, v.videoId)
    ensures Seqs.IsSubseq(r, valid)
  {
    Seqs.Filter(valid, Unrecorded(st, userId))
  }

  /** The pending work record created for a reported like. */
  function PendingRecord(userId: string, v: LikedVideo, now: int): Download {
    Download(userId, v.videoId, v.title, Pending, None, now)
  }

  /** One pending record per like, in order. */
  function PendingRecords(userId: string, vs: seq<LikedVideo>, now: int): (ds: seq<Download>)
    ensures |ds| == |vs|
    ensures forall i :: 0 <= i < |vs| ==> ds[i] == PendingRecord(userId, vs[i], now)
  {
    seq(|vs|, i requires 0 <= i < |vs| => PendingRecord(userId, vs[i], now))
  }

  /** `CreateDownload` applied to each record in turn. */
  function CreateAll(st: Store, ds: seq<Download>): (st': Store)
    ensures st'.downloads == st.downloads + ds
    ensures st'.userRefs == st.userRefs && st'.profiles == st.profiles
    decreases |ds|
  {
    if |ds| == 0 then st
    else
      var st' := CreateAll(CreateDownload(st, ds[0]), ds[1..]);
      assert st.downloads + [ds[0]] + ds[1..] == st.downloads + ds;
      st'
  }

  /** The outcome of one user's turn: the store afterwards, the map entry
      set for the user (if any), how many pending records were created and
      whether the sync-time update went through. */
  datatype Step = Step(store: Store, entry: Option<seq<LikedVideo>>, created: nat, synced: bool)

  /** The likes of a map entry; none when no entry was set. */
  function EntryLikes(e: Option<seq<LikedVideo>>): seq<LikedVideo> {
    if e.Some? then e.value else []
  }

  /** Only `userId`'s profile may differ and its reference may be appended. */
  predicate OthersUnchanged(st: Store, st': Store, userId: string) {
    && (st'.userRefs == st.userRefs || (userId !in st.userRefs && st'.userRefs == st.userRefs + [userId]))
    && st'.profiles - {userId} == st.profiles - {userId}
  }

  /** The likes of a non-empty diff that pass the filter and have no
      download record yet, in diff order. */
  function Dedup(st: Store, userId: string, likes: seq<LikedVideo>): (unique: seq<LikedVideo>)
    ensures forall v :: v in unique <==> v in likes && Keep(v) && !HasRecord(st.downloads, userId, v.videoId)
    ensures Seqs.IsSubseq(unique, FilterValidVideos(likes))
  {
    UniqueLikes(st, userId, FilterValidVideos(likes))
  }

  /** The profile after a sync-time update. */
  function Synced(st: Store, userId: string, now: int): map<string, Profile>
    requires userId in st.profiles
  {
    st.profiles[userId := st.profiles[userId].(lastSyncTimestamp := Some(now))]
  }

  /** Record creation and the sync update for the `unique` likes, the store
      calls being numbered from `first` on. */
  function Record(st: Store, userId: string, unique: seq<LikedVideo>, first: nat, fault: Option<nat>, now: int): (s: Step)
    requires userId in st.profiles
    requires fault.Some? ==> fault.value >= first
    ensures s.entry == (if |unique| > 0 then Some(unique) else None)
    ensures s.created <= |unique|
    ensures s.store.downloads == st.downloads + PendingRecords(userId, unique[..s.created], now)
    ensures s.store.userRefs == st.userRefs
    ensures s.store.profiles == if s.synced then Synced(st, userId, now) else st.profiles
    ensures fault.None? ==> s.synced && s.created == |unique|
  {
    var entry := if |unique| > 0 then Some(unique) else None;
    var done := if fault.Some? && fault.value - first < |unique| then fault.value - first else |unique|;
    var created := CreateAll(st, PendingRecords(userId, unique[..done], now));
    if fault.Some? && fault.value <= first + |unique| then Step(created, entry, done, false)
    else Step(UpdateUserSyncTimestamp(created, userId, now).value, entry, done, true)
  }

  /** The part of a turn after the diff returned `likes` and left the store
      at `st`: filter, existence checks, map entry, record creation and sync
      update, each store call possibly throwing as `run.fault` says. */
  function AfterDiff(st: Store, userId: string, likes: seq<LikedVideo>, run: UserRun, now: int): (s: Step)
    requires |likes| > 0 && userId in st.profiles
    ensures s.entry.Some? ==> s.entry.value == Dedup(st, userId, likes) && |s.entry.value| > 0
    ensures run.fault.None? ==> EntryLikes(s.entry) == Dedup(st, userId, likes) && s.synced
    ensures s.created <= |EntryLikes(s.entry)|
    ensures run.fault.None? ==> s.created == |EntryLikes(s.entry)|
    ensures s.store.downloads == st.downloads + PendingRecords(userId, EntryLikes(s.entry)[..s.created], now)
    ensures s.store.userRefs == st.userRefs
    ensures s.store.profiles == if s.synced then Synced(st, userId, now) else st.profiles
  {
    var valid := FilterValidVideos(likes);
    if run.fault.Some? && run.fault.value < |valid| then Step(st, None, 0, false)
    else Record(st, userId, Dedup(st, userId, likes), |valid|, run.fault, now)
  }

  /** One user's turn. A turn whose diff is empty does no more than the
      tracker did; otherwise `AfterDiff` continues on the tracker's store.
      An error the tracker throws is caught by the per-user handler: the
      turn then reports nothing and leaves the store unchanged. */
  function ProcessUser(st: Store, user: User, run: UserRun, now: int): (s: Step)
    ensures var c := CheckNewLikesForUser(st, user, run.fetch, run.writeOk, now);
      && (|c.likes| == 0 ==> s == Step(c.store, None, 0, false))
      && (|c.likes| > 0 ==> user.userId in c.store.profiles && s == AfterDiff(c.store, user.userId, c.likes, run, now))
      && (c.thrown.Some? ==> s == Step(st, None, 0, false))
  {
    var c := CheckNewLikesForUser(st, user, run.fetch, run.writeOk, now);
    if |c.likes| == 0 then Step(c.store, None, 0, false)
    else AfterDiff(c.store, user.userId, c.likes, run, now)
  }

  /** A turn appends exactly the pending records it counts, one per
      reported like, in order. */
  lemma {:induction false} ProcessUserRecords(st: Store, user: User, run: UserRun, now: int)
    ensures var s := ProcessUser(st, user, run, now);
      && s.created <= |EntryLikes(s.entry)|
      && s.store.downloads == st.downloads + PendingRecords(user.userId, EntryLikes(s.entry)[..s.created], now)
  {
    var c := CheckNewLikesForUser(st, user, run.fetch, run.writeOk, now);
    assert c.store.downloads == st.downloads;
  }

  /** The part after the diff touches no reference and no other profile. */
  lemma {:induction false} AfterDiffFrame(st: Store, userId: string, likes: seq<LikedVideo>, run: UserRun, now: int)
    requires |likes| > 0 && userId in st.profiles
    ensures var s := AfterDiff(st, userId, likes, run, now);
      && s.store.userRefs == st.userRefs
      && s.store.profiles - {userId} == st.profiles - {userId}
      && (Valid(st) ==> Valid(s.store))
  {
    var s := AfterDiff(st, userId, likes, run, now);
    SyncedFrame(st, userId, now);
  }

  /** A sync-time update keeps the set of profiles and every other one. */
  lemma {:induction false} SyncedFrame(st: Store, userId: string, now: int)
    requires userId in st.profiles
    ensures Synced(st, userId, now).Keys == st.profiles.Keys
    ensures Synced(st, userId, now) - {userId} == st.profiles - {userId}
  {
  }

  /** A turn changes no other user's profile and keeps the store valid. */
  lemma {:induction false} ProcessUserFrame(st: Store, user: User, run: UserRun, now: int)
    ensures var s := ProcessUser(st, user, run, now);
      && OthersUnchanged(st, s.store, user.userId)
      && (Valid(st) ==> Valid(s.store))
  {
    var c := CheckNewLikesForUser(st, user, run.fetch, run.writeOk, now);
    var s := ProcessUser(st, user, run, now);
    assert OthersUnchanged(st, c.store, user.userId);
    if |c.likes| > 0 {
      assert s == AfterDiff(c.store, user.userId, c.likes, run, now);
      AfterDiffFrame(c.store, user.userId, c.likes, run, now);
      OthersUnchangedThen(st, c.store, s.store, user.userId);
    } else {
      assert s.store == c.store;
    }
  }

  /** A store that keeps every reference and every other profile of one
      that changed only `userId`'s changed only `userId`'s. */
  lemma {:induction false} OthersUnchangedThen(st: Store, mid: Store, st': Store, userId: string)
    requires OthersUnchanged(st, mid, userId)
    requires st'.userRefs == mid.userRefs && st'.profiles - {userId} == mid.profiles - {userId}
    ensures OthersUnchanged(st, st', userId)
  {
  }

  /** Every reported like of a turn was in the user's diff, passes the
      filter and had no download record when the turn began; without store
      faults the report is exactly those likes and the sync time is
      refreshed exactly when the diff was non-empty. */
  lemma {:induction false} ProcessUserReports(st: Store, user: User, run: UserRun, now: int)
    ensures var c, s := CheckNewLikesForUser(st, user, run.fetch, run.writeOk, now), ProcessUser(st, user, run, now);
      && (s.entry.Some? ==> |c.likes| > 0 && |s.entry.value| > 0)
      && (forall v :: v in EntryLikes(s.entry) ==>
            v in c.likes && Keep(v) && !HasRecord(st.downloads, user.userId, v.videoId))
      && (run.fault.None? ==> (s.synced <==> |c.likes| > 0))
      && (run.fault.None? ==> forall v ::
            v in EntryLikes(s.entry) <==> v in c.likes && Keep(v) && !HasRecord(st.downloads, user.userId, v.videoId))
  {
    var c := CheckNewLikesForUser(st, user, run.fetch, run.writeOk, now);
    assert c.store.downloads == st.downloads;
  }

  /** The per-user report of a cycle, a JavaScript `Map` from user id to
      likes held as its entries in insertion order. */
  type LikesMap = seq<(string, seq<LikedVideo>)>

  /** The keys of the map, in insertion order. */
  function Keys(m: LikesMap): (ks: seq<string>)
    ensures |ks| == |m|
    ensures forall i :: 0 <= i < |m| ==> ks[i] == m[i].0
  {
    seq(|m|, i requires 0 <= i < |m| => m[i].0)
  }

  /** `Map.prototype.get`: the value of the first entry with the key. */
  function MapGet(m: LikesMap, k: string): (r: Option<seq<LikedVideo>>)
    ensures r.None? <==> k !in Keys(m)
    decreases |m|
  {
    if |m| == 0 then None
    else if m[0].0 == k then Some(m[0].1)
    else
      var r := MapGet(m[1..], k);
      assert Keys(m) == [m[0].0] + Keys(m[1..]);
      r
  }

  /** `Map.prototype.set`: an existing key keeps its place and takes the
      new value, a new key is appended. */
  function MapSet(m: LikesMap, k: string, v: seq<LikedVideo>): (r: LikesMap)
    ensures forall e :: e in r ==> e == (k, v) || e in m
    ensures k !in Keys(m) ==> r == m + [(k, v)]
  {
    if k in Keys(m) then Replace(m, k, v) else m + [(k, v)]
  }

  /** Every entry with key `k` takes the value `v`. */
  function Replace(m: LikesMap, k: string, v: seq<LikedVideo>): (r: LikesMap)
    ensures |r| == |m|
    ensures forall i :: 0 <= i < |m| ==> r[i].0 == m[i].0
    ensures forall e :: e in r ==> e == (k, v) || e in m
    decreases |m|
  {
    if |m| == 0 then []
    else [if m[0].0 == k then (k, v) else m[0]] + Replace(m[1..], k, v)
  }

  /** After a set, the key maps to the new value, every other key to what it
      did before, and the map grew by one exactly when the key was new. */
  lemma {:induction false} MapSetGet(m: LikesMap, k: string, v: seq<LikedVideo>, k': string)
    ensures MapGet(MapSet(m, k, v), k) == Some(v)
    ensures k' != k ==> MapGet(MapSet(m, k, v), k') == MapGet(m, k')
    ensures |MapSet(m, k, v)| == if k in Keys(m) then |m| else |m| + 1
  {
    if k in Keys(m) {
      ReplaceGet(m, k, v, k');
    } else {
      AppendGet(m, k, v, k');
    }
  }

  /** Reading a replaced map: the key finds the new value, others the old. */
  lemma {:induction false} ReplaceGet(m: LikesMap, k: string, v: seq<LikedVideo>, k': string)
    ensures k in Keys(m) ==> MapGet(Replace(m, k, v), k) == Some(v)
    ensures k' != k ==> MapGet(Replace(m, k, v), k') == MapGet(m, k')
    decreases |m|
  {
    if |m| > 0 {
      var r := Replace(m, k, v);
      assert r[0] == (if m[0].0 == k then (k, v) else m[0]);
      assert r[1..] == Replace(m[1..], k, v);
      assert Keys(m) == [m[0].0] + Keys(m[1..]);
      ReplaceGet(m[1..], k, v, k');
    }
  }

  /** Reading a map with an entry appended for a new key. */
  lemma {:induction false} AppendGet(m: LikesMap, k: string, v: seq<LikedVideo>, k': string)
    requires k !in Keys(m)
    ensures MapGet(m + [(k, v)], k) == Some(v)
    ensures k' != k ==> MapGet(m + [(k, v)], k') == MapGet(m, k')
    decreases |m|
  {
    var r := m + [(k, v)];
    if |m| > 0 {
      assert r[0] == m[0];
      assert r[1..] == m[1..] + [(k, v)];
      assert Keys(m) == [m[0].0] + Keys(m[1..]);
      AppendGet(m[1..], k, v, k');
    } else {
      assert r == [(k, v)];
    }
  }

  /** The number of likes over all entries. */
  function SumLengths(m: LikesMap): nat
    decreases |m|
  {
    if |m| == 0 then 0 else SumLengths(m[..|m| - 1]) + |m[|m| - 1].1|
  }

  /** The pending records of all entries, entry after entry. */
  function AllRecords(m: LikesMap, now: int): seq<Download>
    decreases |m|
  {
    if |m| == 0 then [] else AllRecords(m[..|m| - 1], now) + PendingRecords(m[|m| - 1].0, m[|m| - 1].1, now)
  }

  /** The state of the loop over the users. */
  datatype Poll = Poll(store: Store, checked: nat, totalNewLikes: nat, byUser: LikesMap)

  /** The loop of a polling cycle over `users`, in order, each turn taken
      by `step`; every user is counted as checked, whatever happens during
      the turn, and a non-empty report is set in the map and added to the
      total. */
  function PollWith(st: Store, users: seq<User>, step: (Store, User) -> Step): (p: Poll)
    ensures p.checked == |users|
    decreases |users|
  {
    if |users| == 0 then Poll(st, 0, 0, [])
    else
      var p := PollWith(st, users[..|users| - 1], step);
      var u := users[|users| - 1];
      var s := step(p.store, u);
      Poll(s.store, p.checked + 1, p.totalNewLikes + |EntryLikes(s.entry)|,
           if s.entry.Some? then MapSet(p.byUser, u.userId, s.entry.value) else p.byUser)
  }

  /** The turn of `checkAllUsersForNewLikes` for a user, with the outside
      world given by `runs`. */
  function Turn(runs: string -> UserRun, now: int): (Store, User) -> Step {
    (st: Store, u: User) => ProcessUser(st, u, runs(u.userId), now)
  }

  /** The loop with the orchestrator's own turn. */
  function PollUsers(st: Store, users: seq<User>, runs: string -> UserRun, now: int): (p: Poll)
    ensures p.checked == |users|
  {
    PollWith(st, users, Turn(runs, now))
  }

  /** The result of a polling cycle. */
  datatype Cycle = Cycle(store: Store, usersChecked: nat, totalNewLikes: nat, newLikesByUser: LikesMap)

  /** The error a cycle throws when the active users cannot be listed. */
  const PollingFailure: string := "Échec du polling YouTube"

  /** `checkAllUsersForNewLikes`: the loop over the active users as the
      store lists them; a failing scan fails the whole cycle. */
  function CheckAllUsersForNewLikes(st: Store, scanOk: bool, runs: string -> UserRun, now: int): (r: Result<Cycle>)
    ensures !scanOk <==> r == Err(PollingFailure)
    ensures r.Ok? ==> r.value.usersChecked == |ActiveIds(st)|
  {
    if !scanOk then Err(PollingFailure)
    else
      var users := GetAllActiveUsers(st);
      var p := PollUsers(st, users, runs, now);
      Ok(Cycle(p.store, p.checked, p.totalNewLikes, p.byUser))
  }

  /** Every turn of `step` appends exactly the pending records it counts. */
  ghost predicate AppendsRecords(step: (Store, User) -> Step, now: int) {
    forall st: Store, u: User ::
      && step(st, u).created <= |EntryLikes(step(st, u).entry)|
      && step(st, u).store.downloads == st.downloads + PendingRecords(u.userId, EntryLikes(step(st, u).entry)[..step(st, u).created], now)
  }

  /** Every turn of `step` reports only likes that pass the filter and have
      no record for the user, and never sets an empty entry. */
  ghost predicate ReportsFresh(step: (Store, User) -> Step) {
    forall st: Store, u: User ::
      && (step(st, u).entry.Some? ==> |step(st, u).entry.value| > 0)
      && (forall v :: v in EntryLikes(step(st, u).entry) ==> Keep(v) && !HasRecord(st.downloads, u.userId, v.videoId))
  }

  /** Every turn of `step` on a listed user creates all the records it
      reports. */
  ghost predicate CreatesAll(step: (Store, User) -> Step, users: seq<User>) {
    forall st: Store, i :: 0 <= i < |users| ==> step(st, users[i]).created == |EntryLikes(step(st, users[i]).entry)|
  }

  /** The orchestrator's turn appends its records and reports fresh likes. */
  lemma {:induction false} TurnFacts(runs: string -> UserRun, now: int)
    ensures AppendsRecords(Turn(runs, now), now)
    ensures ReportsFresh(Turn(runs, now))
  {
    forall st: Store, u: User
      ensures var s := Turn(runs, now)(st, u);
        && s.created <= |EntryLikes(s.entry)|
        && s.store.downloads == st.downloads + PendingRecords(u.userId, EntryLikes(s.entry)[..s.created], now)
        && (s.entry.Some? ==> |s.entry.value| > 0)
        && (forall v :: v in EntryLikes(s.entry) ==> Keep(v) && !HasRecord(st.downloads, u.userId, v.videoId))
    {
      ProcessUserRecords(st, u, runs(u.userId), now);
      ProcessUserReports(st, u, runs(u.userId), now);
    }
  }

  /** Without store faults the orchestrator's turn creates every record it
      reports. */
  lemma {:induction false} TurnCreatesAll(runs: string -> UserRun, now: int, users: seq<User>)
    requires forall i :: 0 <= i < |users| ==> runs(users[i].userId).fault == NoFault
    ensures CreatesAll(Turn(runs, now), users)
  {
    forall st: Store, i | 0 <= i < |users|
      ensures Turn(runs, now)(st, users[i]).created == |EntryLikes(Turn(runs, now)(st, users[i]).entry)|
    {
      var u := users[i];
      var c := CheckNewLikesForUser(st, u, runs(u.userId).fetch, runs(u.userId).writeOk, now);
      if |c.likes| > 0 {
        assert Turn(runs, now)(st, u) == AfterDiff(c.store, u.userId, c.likes, runs(u.userId), now);
      }
    }
  }

  /** Records are only ever appended during a cycle, and every reported
      like passes the filter and had no record for its user when the cycle
      began. */
  lemma {:induction false} PollWithReports(st: Store, users: seq<User>, step: (Store, User) -> Step, now: int)
    requires AppendsRecords(step, now) && ReportsFresh(step)
    ensures var p := PollWith(st, users, step);
      && |st.downloads| <= |p.store.downloads|
      && p.store.downloads[..|st.downloads|] == st.downloads
      && FreshReports(p.byUser, st.downloads)
    decreases |users|
  {
    if |users| > 0 {
      var pre, u := users[..|users| - 1], users[|users| - 1];
      PollWithReports(st, pre, step, now);
      var p := PollWith(st, pre, step);
      var s := step(p.store, u);
      StepFacts(step, now, p.store, u);
      PollWithLast(st, users, step);
      ReportsStep(st, p, u, s, now);
    }
  }

  /** Every like reported in the map passes the filter and has no record
      in `ds` for its user. */
  predicate FreshReports(m: LikesMap, ds: seq<Download>) {
    forall e, v :: e in m && v in e.1 ==> Keep(v) && !HasRecord(ds, e.0, v.videoId)
  }

  /** One more turn keeps the cycle's records a continuation of the first
      ones and its reports fresh. */
  lemma {:induction false} ReportsStep(st: Store, p: Poll, u: User, s: Step, now: int)
    requires |st.downloads| <= |p.store.downloads| && p.store.downloads[..|st.downloads|] == st.downloads
    requires FreshReports(p.byUser, st.downloads)
    requires s.created <= |EntryLikes(s.entry)|
    requires s.store.downloads == p.store.downloads + PendingRecords(u.userId, EntryLikes(s.entry)[..s.created], now)
    requires forall v :: v in EntryLikes(s.entry) ==> Keep(v) && !HasRecord(p.store.downloads, u.userId, v.videoId)
    ensures var q := Next(p, u, s);
      && |st.downloads| <= |q.store.downloads|
      && q.store.downloads[..|st.downloads|] == st.downloads
      && FreshReports(q.byUser, st.downloads)
  {
    var q := Next(p, u, s);
    assert q.store == s.store;
    Seqs.PrefixKept(st.downloads, p.store.downloads, PendingRecords(u.userId, EntryLikes(s.entry)[..s.created], now));
    if s.entry.Some? {
      assert q.byUser == MapSet(p.byUser, u.userId, s.entry.value);
      assert FreshLikes(s.entry.value, u.userId, p.store.downloads);
      FreshLikesPrefix(s.entry.value, u.userId, p.store.downloads, |st.downloads|);
      FreshAfterSet(p.byUser, u.userId, s.entry.value, st.downloads);
    }
  }

  /** Every like passes the filter and has no record in `ds` for the user. */
  predicate FreshLikes(likes: seq<LikedVideo>, userId: string, ds: seq<Download>) {
    forall v :: v in likes ==> Keep(v) && !HasRecord(ds, userId, v.videoId)
  }

  /** Likes fresh against records are fresh against a prefix of them. */
  lemma {:induction false} FreshLikesPrefix(likes: seq<LikedVideo>, userId: string, ds: seq<Download>, n: nat)
    requires n <= |ds| && FreshLikes(likes, userId, ds)
    ensures FreshLikes(likes, userId, ds[..n])
  {
    forall v | v in likes ensures !HasRecord(ds[..n], userId, v.videoId) {
      HasRecordPrefix(ds, n, userId, v.videoId);
    }
  }

  /** Setting an entry of fresh likes keeps the map's reports fresh. */
  lemma {:induction false} FreshAfterSet(m: LikesMap, k: string, likes: seq<LikedVideo>, ds: seq<Download>)
    requires FreshReports(m, ds) && FreshLikes(likes, k, ds)
    ensures FreshReports(MapSet(m, k, likes), ds)
  {
    forall e, v | e in MapSet(m, k, likes) && v in e.1
      ensures Keep(v) && !HasRecord(ds, e.0, v.videoId)
    {
      FreshAfterSetAt(m, k, likes, ds, e, v);
    }
  }

  /** `FreshAfterSet` at one entry and like of the new map. */
  lemma {:induction false} FreshAfterSetAt(m: LikesMap, k: string, likes: seq<LikedVideo>, ds: seq<Download>,
                                           e: (string, seq<LikedVideo>), v: LikedVideo)
    requires FreshReports(m, ds) && FreshLikes(likes, k, ds)
    requires e in MapSet(m, k, likes) && v in e.1
    ensures Keep(v) && !HasRecord(ds, e.0, v.videoId)
  {
    if e !in m {
      assert e == (k, likes);
    }
  }

  /** A record found in a prefix is found in the whole. */
  lemma {:induction false} HasRecordPrefix(ds: seq<Download>, n: nat, userId: string, videoId: string)
    requires n <= |ds|
    ensures HasRecord(ds[..n], userId, videoId) ==> HasRecord(ds, userId, videoId)
  {
    if HasRecord(ds[..n], userId, videoId) {
      var i :| 0 <= i < n && ds[..n][i].userId == userId && ds[..n][i].videoId == videoId;
      assert ds[i] == ds[..n][i];
    }
  }

  /** What the two turn properties say about one turn. */
  lemma {:induction false} StepFacts(step: (Store, User) -> Step, now: int, st: Store, u: User)
    requires AppendsRecords(step, now) && ReportsFresh(step)
    ensures var s := step(st, u);
      && s.created <= |EntryLikes(s.entry)|
      && s.store.downloads == st.downloads + PendingRecords(u.userId, EntryLikes(s.entry)[..s.created], now)
      && (s.entry.Some? ==> |s.entry.value| > 0)
      && forall v :: v in EntryLikes(s.entry) ==> Keep(v) && !HasRecord(st.downloads, u.userId, v.videoId)
  {
  }

  /** Sequences of ids: the ids of a prefix of the users. */
  lemma {:induction false} UserIdsPrefix(users: seq<User>, k: nat)
    requires k <= |users|
    ensures UserIds(users[..k]) == UserIds(users)[..k]
  {
  }

  /** The loop state after one more turn. */
  function Next(p: Poll, u: User, s: Step): Poll {
    Poll(s.store, p.checked + 1, p.totalNewLikes + |EntryLikes(s.entry)|,
         if s.entry.Some? then MapSet(p.byUser, u.userId, s.entry.value) else p.byUser)
  }

  /** The loop over one more user is one more turn. */
  lemma {:induction false} PollWithLast(st: Store, users: seq<User>, step: (Store, User) -> Step)
    requires |users| > 0
    ensures var n := |users|;
      var p := PollWith(st, users[..n - 1], step);
      PollWith(st, users, step) == Next(p, users[n - 1], step(p.store, users[n - 1]))
  {
  }

  /** The totals, the keys and the non-empty entries after one turn of a
      user not yet in the map. */
  lemma {:induction false} TotalsStep(p: Poll, ids: seq<string>, u: User, s: Step)
    requires p.totalNewLikes == SumLengths(p.byUser)
    requires forall k :: k in Keys(p.byUser) ==> k in ids
    requires Seqs.Distinct(Keys(p.byUser))
    requires forall i :: 0 <= i < |p.byUser| ==> |p.byUser[i].1| > 0
    requires u.userId !in ids
    requires s.entry.Some? ==> |s.entry.value| > 0
    ensures var q := Next(p, u, s);
      && q.totalNewLikes == SumLengths(q.byUser)
      && (forall k :: k in Keys(q.byUser) ==> k in ids + [u.userId])
      && Seqs.Distinct(Keys(q.byUser))
      && (forall i :: 0 <= i < |q.byUser| ==> |q.byUser[i].1| > 0)
  {
    assert u.userId !in Keys(p.byUser);
    if s.entry.Some? {
      var m := p.byUser + [(u.userId, s.entry.value)];
      assert Next(p, u, s).byUser == m;
      assert m[..|m| - 1] == p.byUser;
      assert Keys(m) == Keys(p.byUser) + [u.userId];
    }
  }

  /** With each user listed once, the total is the number of likes in the
      map, each user has at most one entry and every entry is non-empty. */
  lemma {:induction false} PollWithTotals(st: Store, users: seq<User>, step: (Store, User) -> Step)
    requires ReportsFresh(step)
    requires Seqs.Distinct(UserIds(users))
    ensures var p := PollWith(st, users, step);
      && p.totalNewLikes == SumLengths(p.byUser)
      && (forall k :: k in Keys(p.byUser) ==> k in UserIds(users))
      && Seqs.Distinct(Keys(p.byUser))
      && (forall i :: 0 <= i < |p.byUser| ==> |p.byUser[i].1| > 0)
    decreases |users|
  {
    if |users| > 0 {
      var n := |users|;
      var pre, u := users[..n - 1], users[n - 1];
      UserIdsPrefix(users, n - 1);
      assert UserIds(users) == UserIds(pre) + [u.userId];
      PollWithTotals(st, pre, step);
      var p := PollWith(st, pre, step);
      var s := step(p.store, u);
      assert s.entry.Some? ==> |s.entry.value| > 0;
      PollWithLast(st, users, step);
      TotalsStep(p, UserIds(pre), u, s);
    }
  }

  /** The records of a map with one more entry. */
  lemma {:induction false} AllRecordsAppend(m: LikesMap, k: string, v: seq<LikedVideo>, now: int)
    ensures AllRecords(m + [(k, v)], now) == AllRecords(m, now) + PendingRecords(k, v, now)
  {
    assert (m + [(k, v)])[..|m|] == m;
  }

  /** The records after one turn of a user not yet in the map that creates
      all it reports. */
  lemma {:induction false} RecordsStep(st: Store, p: Poll, u: User, s: Step, now: int)
    requires p.store.downloads == st.downloads + AllRecords(p.byUser, now)
    requires u.userId !in Keys(p.byUser)
    requires s.store.downloads == p.store.downloads + PendingRecords(u.userId, EntryLikes(s.entry), now)
    ensures var q := Next(p, u, s);
      q.store.downloads == st.downloads + AllRecords(q.byUser, now)
  {
    var q := Next(p, u, s);
    var pending := PendingRecords(u.userId, EntryLikes(s.entry), now);
    Seqs.Assoc(st.downloads, AllRecords(p.byUser, now), pending);
    if s.entry.Some? {
      assert q.byUser == p.byUser + [(u.userId, s.entry.value)];
      AllRecordsAppend(p.byUser, u.userId, s.entry.value, now);
    } else {
      assert q.byUser == p.byUser;
      assert pending == [];
    }
  }

  /** Without store faults and with each user listed once, the records added
      by a cycle are exactly one pending record per reported like, entry
      after entry. */
  lemma {:induction false} PollWithRecords(st: Store, users: seq<User>, step: (Store, User) -> Step, now: int)
    requires AppendsRecords(step, now) && ReportsFresh(step) && CreatesAll(step, users)
    requires Seqs.Distinct(UserIds(users))
    ensures var p := PollWith(st, users, step);
      p.store.downloads == st.downloads + AllRecords(p.byUser, now)
    decreases |users|
  {
    if |users| > 0 {
      var n := |users|;
      var pre, u := users[..n - 1], users[n - 1];
      UserIdsPrefix(users, n - 1);
      assert UserIds(users) == UserIds(pre) + [u.userId];
      CreatesAllPrefix(step, users, n - 1);
      PollWithRecords(st, pre, step, now);
      PollWithTotals(st, pre, step);
      var p := PollWith(st, pre, step);
      var s := step(p.store, u);
      assert s.created == |EntryLikes(s.entry)|;
      assert s.store.downloads == p.store.downloads + PendingRecords(u.userId, EntryLikes(s.entry)[..s.created], now);
      assert EntryLikes(s.entry)[..s.created] == EntryLikes(s.entry);
      assert u.userId !in Keys(p.byUser);
      PollWithLast(st, users, step);
      RecordsStep(st, p, u, s, now);
    }
  }

  /** A step creating all records for the users does so for a prefix. */
  lemma {:induction false} CreatesAllPrefix(step: (Store, User) -> Step, users: seq<User>, k: nat)
    requires k <= |users| && CreatesAll(step, users)
    ensures CreatesAll(step, users[..k])
  {
    forall st: Store, i | 0 <= i < k
      ensures step(st, users[..k][i]).created == |EntryLikes(step(st, users[..k][i]).entry)|
    {
      assert users[..k][i] == users[i];
    }
  }

  /** The cycle's loop only appends records; every reported like passes the
      filter and had no record for its user when the cycle began. */
  lemma {:induction false} PollReports(st: Store, users: seq<User>, runs: string -> UserRun, now: int)
    ensures var p := PollUsers(st, users, runs, now);
      && |st.downloads| <= |p.store.downloads|
      && p.store.downloads[..|st.downloads|] == st.downloads
      && FreshReports(p.byUser, st.downloads)
  {
    TurnFacts(runs, now);
    PollWithReports(st, users, Turn(runs, now), now);
  }

  /** With each user listed once, `totalNewLikes` is the number of likes in
      the map, which holds at most one non-empty entry per user. */
  lemma {:induction false} PollTotals(st: Store, users: seq<User>, runs: string -> UserRun, now: int)
    requires Seqs.Distinct(UserIds(users))
    ensures var p := PollUsers(st, users, runs, now);
      && p.totalNewLikes == SumLengths(p.byUser)
      && Seqs.Distinct(Keys(p.byUser))
      && (forall i :: 0 <= i < |p.byUser| ==> |p.byUser[i].1| > 0)
  {
    TurnFacts(runs, now);
    PollWithTotals(st, users, Turn(runs, now));
  }

  /** Without store faults and with each user listed once, exactly one
      pending record is created per reported like. */
  lemma {:induction false} PollRecords(st: Store, users: seq<User>, runs: string -> UserRun, now: int)
    requires Seqs.Distinct(UserIds(users))
    requires forall i :: 0 <= i < |users| ==> runs(users[i].userId).fault == NoFault
    ensures var p := PollUsers(st, users, runs, now);
      p.store.downloads == st.downloads + AllRecords(p.byUser, now)
  {
    TurnFacts(runs, now);
    TurnCreatesAll(runs, now, users);
    PollWithRecords(st, users, Turn(runs, now), now);
  }

  /** No two records concern the same user and video. */
  predicate OneRecordPerPair(ds: seq<Download>) {
    forall i, j :: 0 <= i < j < |ds| ==> !(ds[i].userId == ds[j].userId && ds[i].videoId == ds[j].videoId)
  }

  /** The videos have pairwise different ids. */
  predicate DistinctIds(vs: seq<LikedVideo>) {
    forall i, j :: 0 <= i < j < |vs| ==> vs[i].videoId != vs[j].videoId
  }

  /** Filtering videos with pairwise different ids keeps them different. */
  lemma {:induction false} FilterDistinctIds(vs: seq<LikedVideo>, p: LikedVideo -> bool)
    requires DistinctIds(vs)
    ensures DistinctIds(Seqs.Filter(vs, p))
    decreases |vs|
  {
    if |vs| > 0 {
      var tail := vs[1..];
      DistinctIdsTail(vs);
      FilterDistinctIds(tail, p);
      var r := Seqs.Filter(tail, p);
      if p(vs[0]) {
        assert Seqs.Filter(vs, p) == [vs[0]] + r;
        forall x | x in r ensures x.videoId != vs[0].videoId {
          assert x in tail;
        }
        ConsDistinctIds(vs[0], r);
      }
    }
  }

  /** The tail of videos with pairwise different ids; its ids differ from
      the head's. */
  lemma {:induction false} DistinctIdsTail(vs: seq<LikedVideo>)
    requires |vs| > 0 && DistinctIds(vs)
    ensures DistinctIds(vs[1..])
    ensures forall x :: x in vs[1..] ==> x.videoId != vs[0].videoId
  {
    var tail := vs[1..];
    forall i, j | 0 <= i < j < |tail| ensures tail[i].videoId != tail[j].videoId {
      assert tail[i] == vs[i + 1] && tail[j] == vs[j + 1];
    }
    forall x | x in tail ensures x.videoId != vs[0].videoId {
      var j :| 0 <= j < |tail| && tail[j] == x;
      assert vs[j + 1] == x;
    }
  }

  /** A video whose id differs from all of `r`'s, put in front of `r`. */
  lemma {:induction false} ConsDistinctIds(x: LikedVideo, r: seq<LikedVideo>)
    requires DistinctIds(r)
    requires forall y :: y in r ==> y.videoId != x.videoId
    ensures DistinctIds([x] + r)
  {
    var q := [x] + r;
    forall i, j | 0 <= i < j < |q| ensures q[i].videoId != q[j].videoId {
      assert q[j] == r[j - 1] && q[j] in r;
      if i > 0 {
        assert q[i] == r[i - 1];
      }
    }
  }

  /** Appending one pending record per video of a batch with pairwise
      different ids, none of them recorded yet for the user, keeps one
      record per user and video. */
  lemma {:induction false} AppendKeepsOnePerPair(ds: seq<Download>, userId: string, xs: seq<LikedVideo>, now: int)
    requires OneRecordPerPair(ds)
    requires DistinctIds(xs)
    requires forall v :: v in xs ==> !HasRecord(ds, userId, v.videoId)
    ensures OneRecordPerPair(ds + PendingRecords(userId, xs, now))
  {
    var r := PendingRecords(userId, xs, now);
    var all := ds + r;
    forall i, j | 0 <= i < j < |all|
      ensures !(all[i].userId == all[j].userId && all[i].videoId == all[j].videoId)
    {
      if j >= |ds| {
        var jj := j - |ds|;
        assert all[j] == r[jj];
        if i < |ds| {
          assert xs[jj] in xs;
          assert all[i] == ds[i];
        } else {
          assert all[i] == r[i - |ds|];
        }
      }
    }
  }

  /** The ids of a turn's diff are pairwise different when the listing's are. */
  lemma {:induction false} DiffIdsDistinct(st: Store, user: User, run: UserRun, now: int)
    requires run.fetch.Listed? ==> Seqs.Distinct(ItemIds(run.fetch.items))
    ensures DistinctIds(CheckNewLikesForUser(st, user, run.fetch, run.writeOk, now).likes)
  {
    var c := CheckNewLikesForUser(st, user, run.fetch, run.writeOk, now);
    if |c.likes| > 0 {
      var items := run.fetch.items;
      var vs := ToLikedVideos(items);
      assert c.likes == NewLikes(vs, user.baselineVideoIds.value);
      assert DistinctIds(vs) by {
        forall i, j | 0 <= i < j < |vs| ensures vs[i].videoId != vs[j].videoId {
          assert vs[i].videoId == ItemIds(items)[i] && vs[j].videoId == ItemIds(items)[j];
        }
      }
      FilterDistinctIds(vs, NotIn(user.baselineVideoIds.value));
    }
  }

  /** The reported likes of a turn have pairwise different ids when the
      listing's are. */
  lemma {:induction false} ReportIdsDistinct(st: Store, user: User, run: UserRun, now: int)
    requires run.fetch.Listed? ==> Seqs.Distinct(ItemIds(run.fetch.items))
    ensures DistinctIds(EntryLikes(ProcessUser(st, user, run, now).entry))
  {
    var c := CheckNewLikesForUser(st, user, run.fetch, run.writeOk, now);
    if |c.likes| > 0 {
      DiffIdsDistinct(st, user, run, now);
      FilterDistinctIds(c.likes, Keep);
      FilterDistinctIds(FilterValidVideos(c.likes), Unrecorded(c.store, user.userId));
    }
  }

  /** A turn keeps one record per user and video when the listing it gets
      has pairwise different ids. */
  lemma {:induction false} ProcessUserOnePerPair(st: Store, user: User, run: UserRun, now: int)
    requires OneRecordPerPair(st.downloads)
    requires run.fetch.Listed? ==> Seqs.Distinct(ItemIds(run.fetch.items))
    ensures OneRecordPerPair(ProcessUser(st, user, run, now).store.downloads)
  {
    var s := ProcessUser(st, user, run, now);
    var xs := EntryLikes(s.entry);
    assert s.created <= |xs| && s.store.downloads == st.downloads + PendingRecords(user.userId, xs[..s.created], now) by {
      ProcessUserRecords(st, user, run, now);
    }
    assert DistinctIds(xs) by {
      ReportIdsDistinct(st, user, run, now);
    }
    assert forall v :: v in xs ==> !HasRecord(st.downloads, user.userId, v.videoId) by {
      ProcessUserReports(st, user, run, now);
    }
    AppendPrefixOnePerPair(st.downloads, user.userId, xs, s.created, now);
  }

  /** `AppendKeepsOnePerPair` for the first `k` videos of a batch. */
  lemma {:induction false} AppendPrefixOnePerPair(ds: seq<Download>, userId: string, xs: seq<LikedVideo>, k: nat, now: int)
    requires OneRecordPerPair(ds) && DistinctIds(xs) && k <= |xs|
    requires forall v :: v in xs ==> !HasRecord(ds, userId, v.videoId)
    ensures OneRecordPerPair(ds + PendingRecords(userId, xs[..k], now))
  {
    var done := xs[..k];
    forall i, j | 0 <= i < j < |done| ensures done[i].videoId != done[j].videoId {
      assert done[i] == xs[i] && done[j] == xs[j];
    }
    forall v | v in done ensures !HasRecord(ds, userId, v.videoId) {
      assert v in xs;
    }
    AppendKeepsOnePerPair(ds, userId, done, now);
  }

  /** Every turn of `step` for a listed user keeps one record per pair. */
  ghost predicate KeepsOnePerPair(step: (Store, User) -> Step, users: seq<User>) {
    forall st: Store, i :: 0 <= i < |users| && OneRecordPerPair(st.downloads) ==>
      OneRecordPerPair(step(st, users[i]).store.downloads)
  }

  lemma {:induction false} PollWithOnePerPair(st: Store, users: seq<User>, step: (Store, User) -> Step)
    requires OneRecordPerPair(st.downloads) && KeepsOnePerPair(step, users)
    ensures OneRecordPerPair(PollWith(st, users, step).store.downloads)
    decreases |users|
  {
    if |users| > 0 {
      var pre := users[..|users| - 1];
      forall st': Store, i | 0 <= i < |pre| && OneRecordPerPair(st'.downloads)
        ensures OneRecordPerPair(step(st', pre[i]).store.downloads)
      {
        assert pre[i] == users[i];
      }
      PollWithOnePerPair(st, pre, step);
    }
  }

  /** A cycle never records the same video twice for a user, provided the
      store starts that way and every listing has pairwise different ids:
      the existence checks all run before the first creation, so this needs
      distinct ids within one batch. */
  lemma {:induction false} PollOnePerPair(st: Store, users: seq<User>, runs: string -> UserRun, now: int)
    requires OneRecordPerPair(st.downloads)
    requires forall i :: 0 <= i < |users| && runs(users[i].userId).fetch.Listed? ==>
      Seqs.Distinct(ItemIds(runs(users[i].userId).fetch.items))
    ensures OneRecordPerPair(PollUsers(st, users, runs, now).store.downloads)
  {
    forall st': Store, i | 0 <= i < |users| && OneRecordPerPair(st'.downloads)
      ensures OneRecordPerPair(Turn(runs, now)(st', users[i]).store.downloads)
    {
      ProcessUserOnePerPair(st', users[i], runs(users[i].userId), now);
    }
    PollWithOnePerPair(st, users, Turn(runs, now));
  }

  /** A user without a baseline is only ever seeded: the turn reports
      nothing and creates no record. */
  lemma {:induction false} NoBaselineNoReport(st: Store, user: User, run: UserRun, now: int)
    requires !HasBaseline(user)
    ensures ProcessUser(st, user, run, now).entry == None
    ensures ProcessUser(st, user, run, now).store.downloads == st.downloads
  {
  }

  /** Every turn of `step` for a listed user reports nothing and leaves the
      records alone. */
  ghost predicate ReportsNothing(step: (Store, User) -> Step, users: seq<User>) {
    forall st: Store, i :: 0 <= i < |users| ==>
      step(st, users[i]).entry.None? && step(st, users[i]).store.downloads == st.downloads
  }

  lemma {:induction false} PollWithNothing(st: Store, users: seq<User>, step: (Store, User) -> Step)
    requires ReportsNothing(step, users)
    ensures var p := PollWith(st, users, step);
      p.totalNewLikes == 0 && p.byUser == [] && p.store.downloads == st.downloads
    decreases |users|
  {
    if |users| > 0 {
      var pre := users[..|users| - 1];
      forall st': Store, i | 0 <= i < |pre|
        ensures step(st', pre[i]).entry.None? && step(st', pre[i]).store.downloads == st'.downloads
      {
        assert pre[i] == users[i];
      }
      PollWithNothing(st, pre, step);
    }
  }

  /** As written, a cycle never reports a like nor creates a record: the
      users the store lists carry no initialisation flag and no baseline, so
      each turn re-seeds the baseline instead of taking the diff. */
  lemma {:induction false} CheckAllNeverReports(st: Store, runs: string -> UserRun, now: int)
    ensures var r := CheckAllUsersForNewLikes(st, true, runs, now);
      && r.Ok?
      && r.value.usersChecked == |ActiveIds(st)|
      && r.value.totalNewLikes == 0
      && r.value.newLikesByUser == []
      && r.value.store.downloads == st.downloads
  {
    var users := GetAllActiveUsers(st);
    forall st': Store, i | 0 <= i < |users|
      ensures Turn(runs, now)(st', users[i]).entry.None?
      ensures Turn(runs, now)(st', users[i]).store.downloads == st'.downloads
    {
      NoBaselineNoReport(st', users[i], runs(users[i].userId), now);
    }
    PollWithNothing(st, users, Turn(runs, now));
  }

  /** A turn whose listing fetch failed reports nothing and creates no record. */
  lemma {:induction false} FailedFetchNoReport(st: Store, user: User, run: UserRun, now: int)
    requires !run.fetch.Listed?
    ensures ProcessUser(st, user, run, now).entry == None
    ensures ProcessUser(st, user, run, now).store.downloads == st.downloads
  {
  }

  /** The diff half of `OneNewLikeTurn`: the listing V1, V2 against the
      baseline V1 yields V2 and writes no record. */
  lemma {:induction false} OneNewLikeDiff(st: Store, user: User, items: seq<ApiItem>, now: int)
    requires HasToken(user) && user.isInitialized == Some(true) && user.baselineVideoIds == Some(["V1"])
    requires ItemIds(items) == ["V1", "V2"]
    ensures var c := CheckNewLikesForUser(st, user, Listed(items), true, now);
      c.likes == [ToLikedVideo(items[1])] && c.store.downloads == st.downloads
  {
    var vs := ToLikedVideos(items);
    assert vs[1] == ToLikedVideo(items[1]) && vs[1].videoId == "V2";
    assert vs[0].videoId == "V1";
    NewLikesAfterPrefix(vs, 1, ["V1"]);
    assert vs[1..] == [vs[1]];
    assert CheckNewLikesForUser(st, user, Listed(items), true, now) == DiffBaseline(st, user, items, true, now);
  }

  /** A user with baseline V1 whose listing is V1, V2, the second a 120 s
      video without a record: exactly V2 is reported and recorded. */
  lemma {:induction false} OneNewLikeTurn(st: Store, user: User, items: seq<ApiItem>, now: int)
    requires HasToken(user) && user.isInitialized == Some(true) && user.baselineVideoIds == Some(["V1"])
    requires ItemIds(items) == ["V1", "V2"]
    requires items[1].duration != "" && ParseDuration(items[1].duration) == 120
    requires !HasRecord(st.downloads, user.userId, "V2")
    ensures var s := ProcessUser(st, user, UserRun(Listed(items), true, NoFault), now);
      && s.entry == Some([ToLikedVideo(items[1])])
      && s.store.downloads == st.downloads + [PendingRecord(user.userId, ToLikedVideo(items[1]), now)]
  {
    var run := UserRun(Listed(items), true, NoFault);
    var v := ToLikedVideo(items[1]);
    var c := CheckNewLikesForUser(st, user, run.fetch, run.writeOk, now);
    OneNewLikeDiff(st, user, items, now);
    assert Keep(v);
    AfterDiffSingle(c.store, user.userId, v, run, now);
  }

  /** Without store faults, a diff of one kept like without a record
      reports it and creates its pending record. */
  lemma {:induction false} AfterDiffSingle(st: Store, userId: string, v: LikedVideo, run: UserRun, now: int)
    requires userId in st.profiles && run.fault.None?
    requires Keep(v) && !HasRecord(st.downloads, userId, v.videoId)
    ensures var s := AfterDiff(st, userId, [v], run, now);
      && s.entry == Some([v])
      && s.store.downloads == st.downloads + [PendingRecord(userId, v, now)]
  {
    assert Dedup(st, userId, [v]) == [v] by {
      Seqs.FilterAll([v], Keep);
      Seqs.FilterAll([v], Unrecorded(st, userId));
    }
    assert [v][..1] == [v];
    assert PendingRecords(userId, [v], now) == [PendingRecord(userId, v, now)];
  }

  /** Three turns of `step`: the first and last report and record nothing,
      the middle one reports `v` and records it, on any store with the
      initial records. */
  lemma {:induction false} ThreeTurns(st: Store, u1: User, u2: User, u3: User, v: LikedVideo,
                                      step: (Store, User) -> Step, now: int)
    requires forall st': Store :: step(st', u1).entry == None && step(st', u1).store.downloads == st'.downloads
    requires forall st': Store :: st'.downloads == st.downloads ==>
      step(st', u2).entry == Some([v]) && step(st', u2).store.downloads == st.downloads + [PendingRecord(u2.userId, v, now)]
    requires forall st': Store :: step(st', u3).entry == None && step(st', u3).store.downloads == st'.downloads
    ensures var p := PollWith(st, [u1, u2, u3], step);
      && p.checked == 3
      && p.totalNewLikes == 1
      && p.byUser == [(u2.userId, [v])]
      && p.store.downloads == st.downloads + [PendingRecord(u2.userId, v, now)]
  {
    var users := [u1, u2, u3];
    assert users[..2] == [u1, u2] && [u1, u2][..1] == [u1] && [u1][..0] == [];
    var p0 := PollWith(st, [], step);
    assert p0 == Poll(st, 0, 0, []);
    var s1 := step(st, u1);
    var p1 := PollWith(st, [u1], step);
    assert p1 == Poll(s1.store, 1, 0, []);
    var s2 := step(p1.store, u2);
    var p2 := PollWith(st, [u1, u2], step);
    assert p2 == Poll(s2.store, 2, 1, MapSet([], u2.userId, [v]));
    assert Keys([]) == [];
    var s3 := step(p2.store, u3);
  }

  /** The end-to-end cycle over three users: the first is seeded, the
      second has one new 120 s like, the third's fetch fails. All three are
      checked, one like is reported for the second user only and exactly
      one pending record is created. */
  lemma {:induction false} ThreeUserCycle(st: Store, u1: User, u2: User, u3: User, items1: seq<ApiItem>, items2: seq<ApiItem>,
                       runs: string -> UserRun, now: int)
    requires HasToken(u1) && !HasBaseline(u1) && |items1| > 0
    requires HasToken(u2) && u2.isInitialized == Some(true) && u2.baselineVideoIds == Some(["V1"])
    requires ItemIds(items2) == ["V1", "V2"]
    requires items2[1].duration != "" && ParseDuration(items2[1].duration) == 120
    requires !HasRecord(st.downloads, u2.userId, "V2")
    requires runs(u1.userId) == UserRun(Listed(items1), true, NoFault)
    requires runs(u2.userId) == UserRun(Listed(items2), true, NoFault)
    requires runs(u3.userId).fetch == ApiFailed("Timeout YouTube API après 15s")
    ensures var p := PollUsers(st, [u1, u2, u3], runs, now);
      && p.checked == 3
      && p.totalNewLikes == 1
      && p.byUser == [(u2.userId, [ToLikedVideo(items2[1])])]
      && p.store.downloads == st.downloads + [PendingRecord(u2.userId, ToLikedVideo(items2[1]), now)]
  {
    var step := Turn(runs, now);
    var v := ToLikedVideo(items2[1]);
    forall st': Store ensures step(st', u1).entry == None && step(st', u1).store.downloads == st'.downloads {
      NoBaselineNoReport(st', u1, runs(u1.userId), now);
    }
    forall st': Store | st'.downloads == st.downloads
      ensures step(st', u2).entry == Some([v]) && step(st', u2).store.downloads == st.downloads + [PendingRecord(u2.userId, v, now)]
    {
      OneNewLikeTurn(st', u2, items2, now);
    }
    forall st': Store ensures step(st', u3).entry == None && step(st', u3).store.downloads == st'.downloads {
      FailedFetchNoReport(st', u3, runs(u3.userId), now);
    }
    ThreeTurns(st, u1, u2, u3, v, step, now);
  }
}
