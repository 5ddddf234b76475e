/** Per-user detection of new likes against a stored baseline of known
    video ids. The platform call is an input outcome: the refresh of the
    delegated credential failed (any refresh error, its timeout included),
    the listing call failed, or it listed the user's most recent likes. */
module Baseline {
  import opened Wrappers
  import opened Strings
  import opened Types
  import opened Videos
  import opened Store
  import Seqs

  datatype Fetch =
    | RefreshFailed                // rethrown as RefreshErrorMessage
    | ApiFailed(message: string)   // listing error or its timeout, with its message
    | Listed(items: seq<ApiItem>)  // the listing; empty when there is no item

  /** The text that marks a credential failure. */
  const TokenExpiredMarker: string := "Token d'accès expiré"
  /** The error every failure of the credential refresh is turned into. */
  const RefreshErrorMessage: string := "Token d'accès expiré ou invalide"

  /** The message of the error a failed fetch throws. */
  function ErrorMessage(f: Fetch): string
    requires !f.Listed?
  {
    match f
    case RefreshFailed => RefreshErrorMessage
    case ApiFailed(m) => m
  }

  /** The failure deactivates the user: its message mentions an expired token. */
  predicate CredentialFailure(f: Fetch) {
    !f.Listed? && Contains(ErrorMessage(f), TokenExpiredMarker)
  }

  /** Every failure of the credential refresh counts as a credential failure. */
  lemma {:induction false} RefreshFailureDeactivates()
    ensures CredentialFailure(RefreshFailed)
  {
    assert RefreshErrorMessage == TokenExpiredMarker + " ou invalide";
    ContainsPrefix(TokenExpiredMarker, " ou invalide");
  }

  /** The user has a non-empty refresh token. */
  predicate HasToken(u: User) {
    u.youtubeRefreshToken.Some? && u.youtubeRefreshToken.value != ""
  }

  /** The user is initialised and carries a baseline (possibly empty). */
  predicate HasBaseline(u: User) {
    u.isInitialized == Some(true) && u.baselineVideoIds.Some?
  }

  /** The ids of the listed items, in order. */
  function ItemIds(items: seq<ApiItem>): (ids: seq<string>)
    ensures |ids| == |items|
    ensures forall i :: 0 <= i < |items| ==> ids[i] == items[i].id
  {
    seq(|items|, i requires 0 <= i < |items| => items[i].id)
  }

  /** The outcome of checking one user: the store after it, the likes it
      reports, and the error it throws, if any (a throwing check reports
      nothing). */
  datatype Checked = Checked(store: Store, likes: seq<LikedVideo>, thrown: Option<string> := None)

  /** Write `patch` to the user's profile when the store accepts writes.
      A rejected write throws; the caller then reports no new like and the
      store is left as it was. */
  function WriteOrDrop(st: Store, userId: string, patch: Profile, writeOk: bool, now: int, likes: seq<LikedVideo>): Checked {
    if writeOk then Checked(CreateOrUpdateUser(st, userId, patch, now), likes) else Checked(st, [])
  }

  /** The write that deactivates a user. */
  const Deactivation: Profile := NoFields.(isActive := Some(false))

  /** A failed fetch: nothing is reported, and a credential failure
      deactivates the user (every other field is kept). The deactivation
      write runs inside the handler, so a rejected one escapes it: the check
      throws the store's save error. */
  function OnFetchFailure(st: Store, user: User, fetch: Fetch, writeOk: bool, now: int): (c: Checked)
    requires !fetch.Listed?
    ensures c.likes == []
    ensures c.store == (if CredentialFailure(fetch) && writeOk
                        then CreateOrUpdateUser(st, user.userId, Deactivation, now) else st)
    ensures c.store != st ==> !ReadUser(user.userId, c.store.profiles[user.userId]).isActive
    ensures c.thrown == (if CredentialFailure(fetch) && !writeOk then Some(SaveFailed) else None)
  {
    if !CredentialFailure(fetch) then Checked(st, [])
    else if writeOk then Checked(CreateOrUpdateUser(st, user.userId, Deactivation, now), [])
    else Checked(st, [], Some(SaveFailed))
  }

  /** Seeding: the listed ids, in order, become the baseline and the user is
      marked initialised; no like is reported. */
  function SeedBaseline(st: Store, user: User, items: seq<ApiItem>, writeOk: bool, now: int): (c: Checked)
    ensures c.likes == []
    ensures writeOk ==>
      && OnlyProfileChanged(st, c.store, user.userId)
      && c.store.profiles[user.userId].baselineVideoIds == Some(ItemIds(items))
      && c.store.profiles[user.userId].isInitialized == Some(true)
      && c.store.profiles[user.userId].isActive == ProfileOf(st, user.userId).isActive
    ensures writeOk ==> c.store.profiles[user.userId] == ProfileOf(st, user.userId).(
      isInitialized := Some(true), baselineVideoIds := Some(ItemIds(items)), lastSyncTimestamp := Some(now))
    ensures !writeOk ==> c == Checked(st, [])
  {
    WriteOrDrop(st, user.userId, NoFields.(isInitialized := Some(true), baselineVideoIds := Some(ItemIds(items))), writeOk, now, [])
  }

  /** The video's id is not in the baseline. */
  function NotIn(known: seq<string>): LikedVideo -> bool {
    (v: LikedVideo) => v.videoId !in known
  }

  /** The listed videos whose id is not in the baseline, in listing order. */
  function NewLikes(current: seq<LikedVideo>, known: seq<string>): (added: seq<LikedVideo>)
    ensures forall v :: v in added <==> v in current && v.videoId !in known
    ensures forall v :: multiset(added)[v] == if v.videoId !in known then multiset(current)[v] else 0
    ensures Seqs.IsSubseq(added, current)
  {
    Seqs.Filter(current, NotIn(known))
  }

  /** Diff against the baseline: the reported likes are `NewLikes` of the
      listing; when there are some, their ids are appended to the baseline,
      which is otherwise kept, and the store must accept the write. */
  function DiffBaseline(st: Store, user: User, items: seq<ApiItem>, writeOk: bool, now: int): (c: Checked)
    requires HasBaseline(user)
    ensures !writeOk ==> c == Checked(st, [])
    ensures writeOk ==> c.likes == NewLikes(ToLikedVideos(items), user.baselineVideoIds.value)
    ensures |c.likes| == 0 ==> c.store == st
    ensures |c.likes| > 0 ==>
      && OnlyProfileChanged(st, c.store, user.userId)
      && c.store.profiles[user.userId].baselineVideoIds == Some(user.baselineVideoIds.value + VideoIds(c.likes))
      && c.store.profiles[user.userId].isInitialized == ProfileOf(st, user.userId).isInitialized
    ensures |c.likes| > 0 ==> c.store.profiles[user.userId] == ProfileOf(st, user.userId).(
      baselineVideoIds := Some(user.baselineVideoIds.value + VideoIds(c.likes)), lastSyncTimestamp := Some(now))
  {
    var known := user.baselineVideoIds.value;
    var added := NewLikes(ToLikedVideos(items), known);
    if |added| == 0 then Checked(st, added)
    else WriteOrDrop(st, user.userId, NoFields.(baselineVideoIds := Some(known + VideoIds(added))), writeOk, now, added)
  }

  /** New likes of one user (`checkNewLikesForUser`). Without a refresh token
      or with an empty listing nothing happens; a failed fetch is handled by
      `OnFetchFailure`; an uninitialised user is seeded by `SeedBaseline`;
      otherwise the likes are found by `DiffBaseline`. Only the user's own
      profile may change. */
  function CheckNewLikesForUser(st: Store, user: User, fetch: Fetch, writeOk: bool, now: int): (c: Checked)
    ensures c.store == st || OnlyProfileChanged(st, c.store, user.userId)
    ensures Valid(st) ==> Valid(c.store)
    ensures !HasToken(user) ==> c == Checked(st, [])
    ensures fetch.Listed? && |fetch.items| == 0 ==> c == Checked(st, [])
    ensures |c.likes| > 0 ==> HasToken(user) && fetch.Listed? && HasBaseline(user) && writeOk
    ensures c.thrown.Some? <==> HasToken(user) && CredentialFailure(fetch) && !writeOk
    ensures c.thrown.Some? ==> c == Checked(st, [], Some(SaveFailed))
    ensures HasToken(user) && !fetch.Listed? ==> c == OnFetchFailure(st, user, fetch, writeOk, now)
    ensures HasToken(user) && fetch.Listed? && |fetch.items| > 0 && !HasBaseline(user) ==>
      c == SeedBaseline(st, user, fetch.items, writeOk, now)
    ensures HasToken(user) && fetch.Listed? && |fetch.items| > 0 && HasBaseline(user) ==>
      c == DiffBaseline(st, user, fetch.items, writeOk, now)
  {
    if !HasToken(user) then Checked(st, [])
    else match fetch
      case RefreshFailed => OnFetchFailure(st, user, fetch, writeOk, now)
      case ApiFailed(_) => OnFetchFailure(st, user, fetch, writeOk, now)
      case Listed(items) =>
        if |items| == 0 then Checked(st, [])
        else if !HasBaseline(user) then SeedBaseline(st, user, items, writeOk, now)
        else DiffBaseline(st, user, items, writeOk, now)
  }

  /** A listing whose every id is already known reports nothing and writes
      nothing: a shrinking snapshot (an unlike) is never a new like. */
  lemma {:induction false} KnownListingReportsNothing(st: Store, user: User, items: seq<ApiItem>, writeOk: bool, now: int)
    requires HasBaseline(user)
    requires forall i :: 0 <= i < |items| ==> items[i].id in user.baselineVideoIds.value
    ensures DiffBaseline(st, user, items, writeOk, now) == Checked(st, [])
  {
  }

  /** The user together with the initialisation flag and baseline its
      stored profile now holds. No store read yields these two fields
      (`ReadUser` drops them), so this is not what the polling cycle sees:
      `Polling.CheckAllNeverReports` states what the code as written does. */
  function Reread(st: Store, user: User): User
    requires user.userId in st.profiles
  {
    var p := st.profiles[user.userId];
    user.(isInitialized := p.isInitialized, baselineVideoIds := p.baselineVideoIds)
  }

  /** Seeding is a fixed point: checking the same listing again, for the
      user carrying the stored flag and baseline, reports nothing and
      writes nothing. */
  lemma {:induction false} SeedThenRecheck(st: Store, user: User, items: seq<ApiItem>, now: int, later: int)
    requires HasToken(user) && |items| > 0 && !HasBaseline(user)
    ensures var c := CheckNewLikesForUser(st, user, Listed(items), true, now);
      && c.likes == []
      && var user' := Reread(c.store, user);
      && HasBaseline(user')
      && CheckNewLikesForUser(c.store, user', Listed(items), true, later) == Checked(c.store, [])
  {
    var c := CheckNewLikesForUser(st, user, Listed(items), true, now);
    assert c == SeedBaseline(st, user, items, true, now);
    var user' := Reread(c.store, user);
    assert user'.baselineVideoIds == Some(ItemIds(items));
    KnownListingReportsNothing(c.store, user', items, true, later);
  }

  /** The diff is idempotent: once the reported likes are appended to the
      baseline, checking the same listing again reports nothing. */
  lemma {:induction false} DiffThenRecheck(st: Store, user: User, items: seq<ApiItem>, now: int, later: int)
    requires HasBaseline(user)
    ensures var c := DiffBaseline(st, user, items, true, now);
      var user' := user.(baselineVideoIds := Some(user.baselineVideoIds.value + VideoIds(c.likes)));
      DiffBaseline(c.store, user', items, true, later) == Checked(c.store, [])
  {
    var c := DiffBaseline(st, user, items, true, now);
    var known := user.baselineVideoIds.value;
    var user' := user.(baselineVideoIds := Some(known + VideoIds(c.likes)));
    var current := ToLikedVideos(items);
    forall i | 0 <= i < |items|
      ensures items[i].id in known + VideoIds(c.likes)
    {
      assert current[i].videoId == items[i].id;
      if items[i].id !in known {
        assert current[i] in c.likes;
        var k :| 0 <= k < |c.likes| && c.likes[k] == current[i];
        assert VideoIds(c.likes)[k] == items[i].id;
      }
    }
    KnownListingReportsNothing(c.store, user', items, true, later);
  }

  /** When the baseline holds the ids of a prefix of the listing and none of
      the rest, the diff is that rest. */
  lemma {:induction false} NewLikesAfterPrefix(vs: seq<LikedVideo>, k: nat, known: seq<string>)
    requires k <= |vs|
    requires forall i :: 0 <= i < k ==> vs[i].videoId in known
    requires forall i :: k <= i < |vs| ==> vs[i].videoId !in known
    ensures NewLikes(vs, known) == vs[k..]
  {
    var p := NotIn(known);
    var pre, post := vs[..k], vs[k..];
    assert vs == pre + post;
    Seqs.FilterAppend(pre, post, p);
    assert Seqs.Filter(pre, p) == [] by {
      forall i | 0 <= i < |pre| ensures !p(pre[i]) {
        assert pre[i] == vs[i];
      }
      Seqs.FilterNone(pre, p);
    }
    assert Seqs.Filter(post, p) == post by {
      forall i | 0 <= i < |post| ensures p(post[i]) {
        assert post[i] == vs[k + i];
      }
      Seqs.FilterAll(post, p);
    }
    assert NewLikes(vs, known) == Seqs.Filter(vs, p);
  }

  /** Listed videos A … E against baseline A, B, C: D and E are new. */
  lemma {:induction false} NewLikesOfFive(current: seq<LikedVideo>)
    requires VideoIds(current) == ["A", "B", "C", "D", "E"]
    ensures NewLikes(current, ["A", "B", "C"]) == current[3..]
  {
    var known: seq<string> := ["A", "B", "C"];
    var ids := VideoIds(current);
    assert forall i :: 0 <= i < 3 ==> current[i].videoId in known by {
      assert ids[0] == "A" && ids[1] == "B" && ids[2] == "C";
    }
    assert forall i :: 3 <= i < |current| ==> current[i].videoId !in known by {
      assert ids[3] == "D" && ids[4] == "E";
    }
    NewLikesAfterPrefix(current, 3, known);
  }

  /** Baseline A, B, C and a listing A … E: exactly D and E are new, in
      that order. */
  lemma {:induction false} GrowingSnapshot(st: Store, user: User, items: seq<ApiItem>, now: int)
    requires user.isInitialized == Some(true) && user.baselineVideoIds == Some(["A", "B", "C"])
    requires ItemIds(items) == ["A", "B", "C", "D", "E"]
    ensures VideoIds(DiffBaseline(st, user, items, true, now).likes) == ["D", "E"]
  {
    var current := ToLikedVideos(items);
    assert VideoIds(current) == ItemIds(items);
    NewLikesOfFive(current);
    VideoIdsSuffix(current, 3);
  }

  /** … and the baseline grows to A … E. */
  lemma {:induction false} GrowingSnapshotBaseline(st: Store, user: User, items: seq<ApiItem>, now: int)
    requires user.isInitialized == Some(true) && user.baselineVideoIds == Some(["A", "B", "C"])
    requires ItemIds(items) == ["A", "B", "C", "D", "E"]
    ensures var c := DiffBaseline(st, user, items, true, now);
      && |c.likes| == 2
      && c.store.profiles[user.userId].baselineVideoIds == Some(["A", "B", "C", "D", "E"])
  {
    GrowingSnapshot(st, user, items, now);
    assert ["A", "B", "C"] + ["D", "E"] == ["A", "B", "C", "D", "E"];
  }

  /** Baseline A … E and a listing A, B, C (two unlikes): nothing is new and
      the store is untouched. */
  lemma {:induction false} ShrinkingSnapshot(st: Store, user: User, items: seq<ApiItem>, now: int)
    requires user.isInitialized == Some(true) && user.baselineVideoIds == Some(["A", "B", "C", "D", "E"])
    requires ItemIds(items) == ["A", "B", "C"]
    ensures DiffBaseline(st, user, items, true, now) == Checked(st, [])
  {
    assert ItemIds(items)[0] == "A" && ItemIds(items)[1] == "B" && ItemIds(items)[2] == "C";
    KnownListingReportsNothing(st, user, items, true, now);
  }
}
