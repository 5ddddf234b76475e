/** The pure video rules of the like listener: reading the platform's
    `PT#H#M#S` durations, classifying Shorts and over-long videos,
    keeping the videos worth downloading, converting the platform's items,
    and cutting id lists into request-sized chunks. */
module Videos {
  import opened Wrappers
  import opened Strings
  import opened Types
  import Seqs

  /** One optional `<digits><unit>` group of a duration, read at position `i`:
      its value and the position after it, or `(0, i)` when the group is absent. */
  function GroupAt(s: string, i: nat, unit: char): (nat, nat)
    requires i <= |s|
  {
    var n := DigitRun(s, i);
    if n > 0 && i + n < |s| && s[i + n] == unit then (DigitsToNat(s[i..i + n]), i + n + 1)
    else (0, i)
  }

  /** Seconds denoted by a duration such as `PT1H2M3S`. The three groups are
      read after the first `PT`; an absent group counts zero, and a string with
      no `PT` at all is worth zero seconds (days, as in `P1DT2H`, are not read). */
  function ParseDuration(d: string): (secs: nat)
    ensures !Contains(d, "PT") ==> secs == 0
  {
    match IndexOf(d, "PT")
    case None => 0
    case Some(p) => ParseGroups(d, p + 2)
  }

  /** Seconds of the hour, minute and second groups read from position `q`. */
  function ParseGroups(d: string, q: nat): nat
    requires q <= |d|
  {
    var (h, i1) := GroupAt(d, q, 'H');
    if i1 > |d| then 0 else
    var (m, i2) := GroupAt(d, i1, 'M');
    if i2 > |d| then 0 else
    var (sec, _) := GroupAt(d, i2, 'S');
    h * 3600 + m * 60 + sec
  }

  /** One group of a rendered duration: `<n><unit>`, or nothing. */
  function Part(x: Option<nat>, unit: char): string {
    match x
    case Some(n) => NatToString(n) + [unit]
    case None => ""
  }

  /** The duration `PT[<h>H][<m>M][<s>S]`, each group present when given. */
  function FormatDuration(h: Option<nat>, m: Option<nat>, s: Option<nat>): string {
    "PT" + (Part(h, 'H') + Part(m, 'M') + Part(s, 'S'))
  }

  /** The group for `unit` is absent at the start of `t`. */
  predicate NoGroupAtStart(t: string, unit: char) {
    var n := DigitRun(t, 0);
    !(n > 0 && n < |t| && t[n] == unit)
  }

  /** The digit run at a position does not depend on what precedes the text. */
  lemma {:induction false} DigitRunShift(a: string, t: string, k: nat)
    requires k <= |t|
    ensures DigitRun(a + t, |a| + k) == DigitRun(t, k)
    decreases |t| - k
  {
    if k < |t| {
      assert (a + t)[|a| + k] == t[k];
      if IsDigit(t[k]) {
        DigitRunShift(a, t, k + 1);
      }
    }
  }

  /** A group for another unit, placed before `rest`, keeps `unit`'s group absent. */
  lemma {:induction false} PartBlocksGroup(x: Option<nat>, u: char, rest: string, unit: char)
    requires u != unit && !IsDigit(u)
    requires x.Some? || NoGroupAtStart(rest, unit)
    ensures NoGroupAtStart(Part(x, u) + rest, unit)
  {
    if x.Some? {
      var ds := NatToString(x.value);
      var t := Part(x, u) + rest;
      assert t == "" + ds + ([u] + rest);
      DigitRunOfDigits(ds, [u] + rest, "");
      assert t[|ds|] == u;
    } else {
      assert Part(x, u) + rest == rest;
    }
  }

  /** Reading the group for `unit` right after `a` yields the rendered value
      and moves past the rendered text. */
  lemma {:induction false} GroupReadsPart(a: string, x: Option<nat>, unit: char, t: string)
    requires NoGroupAtStart(t, unit) && !IsDigit(unit)
    ensures GroupAt(a + Part(x, unit) + t, |a|, unit) == (x.GetOr(0), |a| + |Part(x, unit)|)
  {
    if x.Some? {
      var ds := NatToString(x.value);
      assert a + Part(x, unit) + t == a + ds + ([unit] + t);
      GroupReadsDigits(a, ds, unit, t);
    } else {
      assert a + Part(x, unit) + t == a + t;
      GroupAbsent(a, t, unit);
    }
  }

  lemma {:induction false} GroupReadsDigits(a: string, ds: string, unit: char, t: string)
    requires AllDigits(ds) && |ds| > 0 && !IsDigit(unit)
    ensures GroupAt(a + ds + ([unit] + t), |a|, unit) == (DigitsToNat(ds), |a| + |ds| + 1)
  {
    var r := [unit] + t;
    DigitRunOfDigits(ds, r, a);
    Seqs.MiddleSlice(a, ds, r);
    GroupAtDigits(a + ds + r, |a|, unit, ds);
  }

  /** The group read where a run of exactly `ds` is followed by `unit`. */
  lemma {:induction false} GroupAtDigits(s: string, i: nat, unit: char, ds: string)
    requires i + |ds| < |s| && |ds| > 0 && AllDigits(ds)
    requires DigitRun(s, i) == |ds| && s[i..i + |ds|] == ds && s[i + |ds|] == unit
    ensures GroupAt(s, i, unit) == (DigitsToNat(ds), i + |ds| + 1)
  {
  }

  lemma {:induction false} GroupAbsent(a: string, t: string, unit: char)
    requires NoGroupAtStart(t, unit)
    ensures GroupAt(a + t, |a|, unit) == (0, |a|)
  {
    DigitRunShift(a, t, 0);
    var n := DigitRun(t, 0);
    if n > 0 && n < |t| {
      assert (a + t)[|a| + n] == t[n];
    }
  }

  /** The first `PT` of `pre + "PT" + rest` is the one after `pre` when `pre`
      holds none. */
  lemma {:induction false} FirstPT(pre: string, rest: string)
    requires !Contains(pre, "PT")
    ensures IndexOf(pre + "PT" + rest, "PT") == Some(|pre|)
  {
    var s := pre + "PT" + rest;
    assert MatchAt(s, "PT", |pre|) by {
      assert s[|pre|..|pre| + 2] == "PT";
    }
    forall j | 0 <= j < |pre| ensures !MatchAt(s, "PT", j) {
      if MatchAt(s, "PT", j) {
        assert s[j] == s[j..j + 2][0] == 'P' && s[j + 1] == s[j..j + 2][1] == 'T';
        if j + 1 < |pre| {
          assert pre[j..j + 2] == [s[j], s[j + 1]];
          ContainsWhenMatched(pre, "PT", j);
        }
        assert false;
      }
    }
  }

  /** The groups that follow a missing hour or minute group keep it absent. */
  lemma {:induction false} TailsBlockGroups(m: Option<nat>, s: Option<nat>)
    ensures NoGroupAtStart(Part(m, 'M') + Part(s, 'S'), 'H')
    ensures NoGroupAtStart(Part(s, 'S'), 'M')
    ensures NoGroupAtStart("", 'S')
  {
    assert NoGroupAtStart("", 'H') && NoGroupAtStart("", 'M');
    PartBlocksGroup(s, 'S', "", 'M');
    PartBlocksGroup(s, 'S', "", 'H');
    assert Part(s, 'S') + "" == Part(s, 'S');
    PartBlocksGroup(m, 'M', Part(s, 'S'), 'H');
  }

  lemma {:induction false} GroupsReadParts(d: string, a: string, q: nat, h: Option<nat>, m: Option<nat>, s: Option<nat>)
    requires d == a + (Part(h, 'H') + Part(m, 'M') + Part(s, 'S')) && q == |a|
    ensures q <= |d|
    ensures ParseGroups(d, q) == 3600 * h.GetOr(0) + 60 * m.GetOr(0) + s.GetOr(0)
  {
    var ph, pm, ps := Part(h, 'H'), Part(m, 'M'), Part(s, 'S');
    var i1, i2, i3 := q + |ph|, q + |ph| + |pm|, |d|;
    Seqs.Assoc(ph, pm, ps);
    Seqs.Assoc(a, ph, pm + ps);
    Seqs.Assoc(a + ph, pm, ps);
    assert d == (a + ph + pm) + ps + [];
    TailsBlockGroups(m, s);
    GroupInside(d, a, q, h, 'H', pm + ps, i1);
    GroupInside(d, a + ph, i1, m, 'M', ps, i2);
    GroupInside(d, a + ph + pm, i2, s, 'S', [], i3);
    SumGroups(d, q, i1, i2, h.GetOr(0), m.GetOr(0), s.GetOr(0));
  }

  /** `GroupReadsPart` for a text already split around the group. */
  lemma {:induction false} GroupInside(d: string, a: string, i: nat, x: Option<nat>, unit: char, t: string, j: nat)
    requires d == a + Part(x, unit) + t && i == |a| && j == i + |Part(x, unit)|
    requires NoGroupAtStart(t, unit) && !IsDigit(unit)
    ensures i <= j <= |d|
    ensures GroupAt(d, i, unit) == (x.GetOr(0), j)
  {
    GroupReadsPart(a, x, unit, t);
  }

  /** `ParseGroups` adds up the three groups read in turn. */
  lemma {:induction false} SumGroups(d: string, q: nat, i1: nat, i2: nat, h: nat, m: nat, s: nat)
    requires q <= i1 <= i2 <= |d|
    requires GroupAt(d, q, 'H') == (h, i1) && GroupAt(d, i1, 'M') == (m, i2) && GroupAt(d, i2, 'S').0 == s
    ensures ParseGroups(d, q) == 3600 * h + 60 * m + s
  {
  }

  /** Round trip: any rendered duration, after any text without `PT`, is read
      back as 3600 h + 60 m + s, missing groups counting zero. */
  lemma {:induction false} ParseFormatted(pre: string, h: Option<nat>, m: Option<nat>, s: Option<nat>)
    requires !Contains(pre, "PT")
    ensures ParseDuration(pre + FormatDuration(h, m, s))
         == 3600 * h.GetOr(0) + 60 * m.GetOr(0) + s.GetOr(0)
  {
    var rest := Part(h, 'H') + Part(m, 'M') + Part(s, 'S');
    var d := pre + FormatDuration(h, m, s);
    Seqs.Assoc(pre, "PT", rest);
    FirstPT(pre, rest);
    GroupsReadParts(d, pre + "PT", |pre| + 2, h, m, s);
  }

  /** A Short lasts at most 60 seconds. */
  predicate IsYouTubeShort(d: string) {
    ParseDuration(d) <= 60
  }

  /** An over-long video lasts more than 6 minutes. */
  predicate IsVideoTooLong(d: string) {
    ParseDuration(d) > 360
  }

  /** The two classes are disjoint, and a duration that cannot be read counts
      as a Short. */
  lemma {:induction false} ClassesDisjoint(d: string)
    ensures !(IsYouTubeShort(d) && IsVideoTooLong(d))
    ensures !Contains(d, "PT") ==> IsYouTubeShort(d) && !IsVideoTooLong(d)
  {
  }

  /** A video kept for download: not a Short, and not over-long when it has a duration. */
  predicate Keep(v: LikedVideo) {
    !v.isShort && !(v.duration.Some? && v.duration.value != "" && IsVideoTooLong(v.duration.value))
  }

  /** The videos worth downloading, in their original order: exactly those that
      are not Shorts and have either no duration or one of at most 360 s. */
  function FilterValidVideos(vs: seq<LikedVideo>): (r: seq<LikedVideo>)
    ensures forall v :: v in r <==>
      v in vs && !v.isShort && (v.duration.None? || ParseDuration(v.duration.value) <= 360)
    ensures forall v :: multiset(r)[v] == if Keep(v) then multiset(vs)[v] else 0
    ensures Seqs.IsSubseq(r, vs)
  {
    Seqs.Filter(vs, Keep)
  }

  /** A video item of the platform's answer; an empty string stands for a
      missing or empty field. */
  datatype ApiItem = ApiItem(
    id: string,
    title: string,
    duration: string,
    publishedAt: string,
    channelTitle: string,
    mediumThumbnail: string,
    defaultThumbnail: string)

  /** A non-empty string, or nothing (`s || undefined`). */
  function NonEmpty(s: string): Option<string> {
    if s != "" then Some(s) else None
  }

  const UnknownTitle: string := "Titre inconnu"

  /** The liked video built from a platform item: an untitled item gets a
      placeholder title, the medium thumbnail is preferred, and a video is a
      Short only when it has a duration of at most 60 s. */
  function ToLikedVideo(item: ApiItem): (v: LikedVideo)
    ensures v.videoId == item.id && v.title != ""
    ensures v.isShort <==> v.duration.Some? && ParseDuration(v.duration.value) <= 60
    ensures v.duration.Some? ==> v.duration.value == item.duration
  {
    LikedVideo(
      item.id,
      if item.title != "" then item.title else UnknownTitle,
      NonEmpty(item.duration),
      NonEmpty(item.publishedAt),
      NonEmpty(item.channelTitle),
      if item.mediumThumbnail != "" then Some(item.mediumThumbnail) else NonEmpty(item.defaultThumbnail),
      item.duration != "" && IsYouTubeShort(item.duration))
  }

  function ToLikedVideos(items: seq<ApiItem>): (vs: seq<LikedVideo>)
    ensures |vs| == |items|
    ensures forall i :: 0 <= i < |items| ==> vs[i] == ToLikedVideo(items[i])
  {
    seq(|items|, i requires 0 <= i < |items| => ToLikedVideo(items[i]))
  }

  /** All chunks laid end to end. */
  function Flatten<T>(chunks: seq<seq<T>>): seq<T>
    decreases |chunks|
  {
    if |chunks| == 0 then [] else chunks[0] + Flatten(chunks[1..])
  }

  /** Consecutive slices of `a` of `size` elements, the last one possibly
      shorter; laid end to end they give back `a`. */
  function ChunkArray<T>(a: seq<T>, size: nat): (chunks: seq<seq<T>>)
    requires size > 0
    ensures Flatten(chunks) == a
    ensures |chunks| == 0 <==> |a| == 0
    ensures forall i :: 0 <= i < |chunks| ==> 0 < |chunks[i]| <= size
    ensures forall i :: 0 <= i < |chunks| - 1 ==> |chunks[i]| == size
    decreases |a|
  {
    if |a| == 0 then []
    else if |a| <= size then [a]
    else
      var rest := ChunkArray(a[size..], size);
      assert a == a[..size] + a[size..];
      [a[..size]] + rest
  }
}
