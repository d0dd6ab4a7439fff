/** The display rules of the game-presence widget: URL classification, the
    status copy, the session and last-session labels, the avatar and
    background fallbacks, and the per-second elapsed-time ticker. */
module SteamWidget {
  import opened Wrappers
  import opened JsText
  import opened MusicTime
  import opened Stream

  // ---------------------------------------------------------------------
  // URL classification
  // ---------------------------------------------------------------------

  /** `isMediaVideo`: a present URL whose lowercased text ends in ".webm". */
  predicate IsMediaVideo(url: Option<string>) {
    url.Some? && EndsWith(Lower(url.value), ".webm")
  }

  /** `isImageUrl`: a present URL whose lowercased text ends in one of the
      image extensions. */
  predicate IsImageUrl(url: Option<string>) {
    url.Some? &&
    var u := Lower(url.value);
    EndsWith(u, ".png") || EndsWith(u, ".jpg") || EndsWith(u, ".jpeg") ||
    EndsWith(u, ".webp") || EndsWith(u, ".gif")
  }

  /** A text that ends in `suffix` ends in its last character. */
  lemma EndsWithLast(s: string, suffix: string)
    requires suffix != [] && EndsWith(s, suffix)
    ensures s[|s| - 1] == suffix[|suffix| - 1]
  {
    assert s[|s| - |suffix|..][|suffix| - 1] == s[|s| - 1];
  }

  /** No URL is both a video and an image, and a missing URL is neither. */
  lemma UrlKindsExclusive(url: Option<string>)
    ensures !(IsMediaVideo(url) && IsImageUrl(url))
    ensures url.None? ==> !IsMediaVideo(url) && !IsImageUrl(url)
  {
    if IsMediaVideo(url) {
      var u := Lower(url.value);
      EndsWithLast(u, ".webm");
      if EndsWith(u, ".png") { EndsWithLast(u, ".png"); }
      if EndsWith(u, ".jpg") { EndsWithLast(u, ".jpg"); }
      if EndsWith(u, ".jpeg") { EndsWithLast(u, ".jpeg"); }
      if EndsWith(u, ".webp") { EndsWithLast(u, ".webp"); }
      if EndsWith(u, ".gif") { EndsWithLast(u, ".gif"); }
    }
  }

  /** Lowercasing distributes over concatenation. */
  lemma LowerAppend(a: string, b: string)
    ensures Lower(a + b) == Lower(a) + Lower(b)
  {
    assert forall i :: 0 <= i < |a + b| ==> Lower(a + b)[i] == (Lower(a) + Lower(b))[i];
  }

  /** Every text ends in what was appended to it. */
  lemma EndsWithAppended(a: string, b: string)
    ensures EndsWith(a + b, b)
  {
    assert (a + b)[|a + b| - |b|..] == b;
  }

  /** The extension is matched whatever its case: a URL whose ending
      lowercases to ".webm" is a video, and one whose ending lowercases to
      an image extension is an image. */
  lemma UrlKindsBySuffix(stem: string, ext: string)
    ensures Lower(ext) == ".webm" ==> IsMediaVideo(Some(stem + ext))
    ensures (Lower(ext) == ".png" || Lower(ext) == ".jpg" || Lower(ext) == ".jpeg" ||
             Lower(ext) == ".webp" || Lower(ext) == ".gif") ==> IsImageUrl(Some(stem + ext))
  {
    LowerAppend(stem, ext);
    EndsWithAppended(Lower(stem), Lower(ext));
  }

  /** Any other ending classifies a URL as neither: a URL whose lowercased
      last character is none of 'm', 'g', 'p' and 'f' is no video and no
      image. */
  lemma UrlKindsOtherEnding(url: string)
    requires url != [] && LowerChar(url[|url| - 1]) !in "mgpf"
    ensures !IsMediaVideo(Some(url)) && !IsImageUrl(Some(url))
  {
    var u := Lower(url);
    assert u[|u| - 1] == LowerChar(url[|url| - 1]);
    if EndsWith(u, ".webm") { EndsWithLast(u, ".webm"); }
    if EndsWith(u, ".png") { EndsWithLast(u, ".png"); }
    if EndsWith(u, ".jpg") { EndsWithLast(u, ".jpg"); }
    if EndsWith(u, ".jpeg") { EndsWithLast(u, ".jpeg"); }
    if EndsWith(u, ".webp") { EndsWithLast(u, ".webp"); }
    if EndsWith(u, ".gif") { EndsWithLast(u, ".gif"); }
  }

  // ---------------------------------------------------------------------
  // Status and labels
  // ---------------------------------------------------------------------

  datatype StatusCopy = StatusCopy(text: string, dot: string)

  /** `getStatusCopy`; `None` is a missing state. */
  function StatusCopyOf(state: Option<SteamState>): StatusCopy {
    match state
    case Some(InGame) => StatusCopy("Playing now", "bg-emerald-400")
    case Some(OnlineIdle) => StatusCopy("Online · Idle", "bg-amber-400")
    case Some(Online) => StatusCopy("Online", "bg-emerald-400")
    case Some(Offline) => StatusCopy("Offline", "bg-slate-500")
    case _ => StatusCopy("Unknown", "bg-slate-500")
  }

  /** The four known states have four different labels, and exactly the
      missing or unrecognised state reads "Unknown". */
  lemma StatusLabels(a: Option<SteamState>, b: Option<SteamState>)
    ensures StatusCopyOf(a).text == "Unknown" <==> (a.None? || a.value == UnknownState)
    ensures StatusCopyOf(a).text != "Unknown" && StatusCopyOf(a).text == StatusCopyOf(b).text ==> a == b
    ensures (StatusCopyOf(a).dot == "bg-emerald-400") <==> (a == Some(InGame) || a == Some(Online))
  {
  }

  /** `Math.round(ms / 1000)` on a whole number of milliseconds: the nearest
      whole second, halves rounded up. */
  function RoundSeconds(ms: int): (r: int)
    ensures 1000 * r - 500 <= ms < 1000 * r + 500
  {
    (ms + 500) / 1000
  }

  /** The duration rule `getSessionLabel` and `getLastSessionLabel` share: a
      non-empty label wins, else a finite millisecond count is formatted as
      whole seconds, else there is nothing to show. */
  function DurationText(given: string, ms: Option<int>): Option<string> {
    if given != "" then Some(given)
    else if ms.Some? then Some(FormatInt(RoundSeconds(ms.value)))
    else None
  }

  /** The label wins over the count, and a formatted count reads back as the
      rounded number of seconds (0 for a negative count). */
  lemma DurationTextRule(given: string, ms: Option<int>)
    ensures given != "" ==> DurationText(given, ms) == Some(given)
    ensures given == "" && ms.None? ==> DurationText(given, ms).None?
    ensures given == "" && ms.Some? ==> (DurationText(given, ms).Some? &&
      ParseTimePart(DurationText(given, ms).value) ==
        (if RoundSeconds(ms.value) < 0 then 0 else RoundSeconds(ms.value)))
  {
    if given == "" && ms.Some? {
      var r := RoundSeconds(ms.value);
      if r < 0 {
        FormatSecondsClamps(r as real);
        assert ParseTimePart("0:00") == ParseTimePart(FormatClock(0));
        ParseFormatClock(0);
      } else {
        ParseFormatSeconds(r);
      }
    }
  }

  /** `getSessionLabel`. */
  function SessionLabel(steam: Option<SteamPresence>): string {
    if steam.None? || steam.value.session.None? then "--:--"
    else
      var s := steam.value.session.value;
      DurationText(s.elapsedLabel, s.elapsedMs).GetOr("--:--")
  }

  /** No session shows "--:--"; otherwise the session's duration text, or
      "--:--" when it has neither a label nor a finite count. */
  lemma SessionLabelRule(steam: Option<SteamPresence>)
    ensures steam.None? || steam.value.session.None? ==> SessionLabel(steam) == "--:--"
    ensures steam.Some? && steam.value.session.Some? ==>
      var s := steam.value.session.value;
      SessionLabel(steam) == if s.elapsedLabel != "" then s.elapsedLabel
        else if s.elapsedMs.Some? then FormatInt(RoundSeconds(s.elapsedMs.value))
        else "--:--"
  {
  }

  /** `getLastSessionLabel`: `None` is `null`. */
  function LastSessionLabel(history: seq<SteamHistoryItem>): Option<string> {
    if history == [] then None
    else DurationText(history[0].durationLabel, history[0].durationMs)
  }

  /** Only the newest entry is read: an empty history has no label, and
      entries after the first never change it. */
  lemma LastSessionLabelNewestOnly(history: seq<SteamHistoryItem>, more: seq<SteamHistoryItem>)
    ensures history == [] ==> LastSessionLabel(history).None?
    ensures history != [] ==> LastSessionLabel(history + more) == LastSessionLabel(history[..1])
    ensures history != [] && history[0].durationLabel != "" ==>
      LastSessionLabel(history + more) == Some(history[0].durationLabel)
  {
    if history != [] {
      assert (history + more)[0] == history[0] == history[..1][0];
    }
  }

  // ---------------------------------------------------------------------
  // Avatar and background
  // ---------------------------------------------------------------------

  /** `backgroundLarge ?? backgroundSmall ?? null`. */
  function BackgroundUrl(profile: Option<SteamProfile>): (r: Option<string>) {
    if profile.None? then None
    else if profile.value.backgroundLarge.Some? then profile.value.backgroundLarge
    else profile.value.backgroundSmall
  }

  /** The large background wins, the small one is the fallback, and without
      either (or without a profile) there is none. */
  lemma BackgroundFallback(profile: Option<SteamProfile>)
    ensures BackgroundUrl(profile).None? <==>
      (profile.None? || (profile.value.backgroundLarge.None? && profile.value.backgroundSmall.None?))
    ensures BackgroundUrl(profile).Some? ==>
      BackgroundUrl(profile) == profile.value.backgroundLarge ||
      (profile.value.backgroundLarge.None? && BackgroundUrl(profile) == profile.value.backgroundSmall)
  {
  }

  /** The avatar: `profileUrl` when it names an image, else
      `avatar ?? profileUrl ?? ''`. */
  function AvatarUrl(profile: Option<SteamProfile>): string {
    if profile.None? then ""
    else
      var p := profile.value;
      if IsImageUrl(p.profileUrl) then p.profileUrl.value
      else if p.avatar.Some? then p.avatar.value
      else p.profileUrl.GetOr("")
  }

  /** An image profile URL wins; otherwise the avatar field; otherwise the
      profile URL; otherwise the empty text. */
  lemma AvatarFallback(profile: Option<SteamProfile>)
    ensures profile.None? ==> AvatarUrl(profile) == ""
    ensures profile.Some? && IsImageUrl(profile.value.profileUrl) ==>
      Some(AvatarUrl(profile)) == profile.value.profileUrl
    ensures profile.Some? && !IsImageUrl(profile.value.profileUrl) && profile.value.avatar.Some? ==>
      Some(AvatarUrl(profile)) == profile.value.avatar
    ensures profile.Some? && !IsImageUrl(profile.value.profileUrl) && profile.value.avatar.None? ==>
      AvatarUrl(profile) == profile.value.profileUrl.GetOr("")
    ensures AvatarUrl(profile) == "" || Some(AvatarUrl(profile)) == profile.value.profileUrl ||
      Some(AvatarUrl(profile)) == profile.value.avatar
  {
  }

  /** `isPlaying`: the PLAYING state and a game. */
  predicate IsPlaying(steam: Option<SteamPresence>) {
    steam.Some? && steam.value.state == InGame && steam.value.game.Some?
  }

  // ---------------------------------------------------------------------
  // Elapsed time
  // ---------------------------------------------------------------------

  /** `baseElapsedMs` at the moment `now` it is computed. */
  function BaseElapsedMs(session: Option<SteamSession>, now: int): Option<int> {
    if session.None? then None
    else if session.value.elapsedMs.Some? then session.value.elapsedMs
    else if session.value.startedAt.Some? then Some(Max0(now - session.value.startedAt.value))
    else None
  }

  function Max0(x: int): (r: nat)
    ensures r >= x && (r == 0 || r == x)
  {
    if x < 0 then 0 else x
  }

  /** No session gives no base; a finite elapsed count is taken as it is;
      otherwise the time since the start, never negative. */
  lemma BaseElapsedRule(session: Option<SteamSession>, now: int)
    ensures BaseElapsedMs(session, now).None? <==>
      (session.None? || (session.value.elapsedMs.None? && session.value.startedAt.None?))
    ensures session.Some? && session.value.elapsedMs.Some? ==>
      BaseElapsedMs(session, now) == session.value.elapsedMs
    ensures session.Some? && session.value.elapsedMs.None? && session.value.startedAt.Some? ==>
      var ms := BaseElapsedMs(session, now).value;
      ms >= 0 && ms >= now - session.value.startedAt.value &&
      (ms == 0 || ms == now - session.value.startedAt.value)
  {
  }

  /** One tick's elapsed milliseconds: measured from a truthy (present,
      non-zero) start, else extrapolated from the base by the time since
      the effect ran. */
  function TickElapsedMs(startedAt: Option<int>, base: int, baseEpoch: int, now: int): nat {
    if startedAt.Some? && startedAt.value != 0 then Max0(now - startedAt.value)
    else Max0(base + (now - baseEpoch))
  }

  /** The seconds a tick shows never go down while time moves forward. */
  lemma LiveSecondsMonotone(startedAt: Option<int>, base: int, baseEpoch: int, now: int, later: int)
    requires now <= later
    ensures TickElapsedMs(startedAt, base, baseEpoch, now) / 1000 <=
            TickElapsedMs(startedAt, base, baseEpoch, later) / 1000
  {
    var a := TickElapsedMs(startedAt, base, baseEpoch, now);
    var b := TickElapsedMs(startedAt, base, baseEpoch, later);
    assert a <= b;
    DivMonotone(a, b);
  }

  lemma DivMonotone(a: nat, b: nat)
    requires a <= b
    ensures a / 1000 <= b / 1000
  {
  }

  /** An extrapolated tick advances one second per 1000 ms: a tick taken
      `1000 * k` ms after another shows `k` more seconds, as long as the
      earlier one was not clamped at zero. */
  lemma LiveSecondsAdvance(base: int, baseEpoch: int, now: int, k: nat)
    requires base + (now - baseEpoch) >= 0
    ensures TickElapsedMs(None, base, baseEpoch, now + 1000 * k) / 1000 ==
            TickElapsedMs(None, base, baseEpoch, now) / 1000 + k
  {
    var a := base + (now - baseEpoch);
    assert TickElapsedMs(None, base, baseEpoch, now + 1000 * k) == a + 1000 * k;
    assert (a + 1000 * k) / 1000 == a / 1000 + k;
  }

  /** The effect at the heart of the widget: it keeps `liveSeconds` up to
      date from the current session while an interval is running. */
  class LiveTicker {
    var liveSeconds: Option<int>
    /** Whether the interval is running. */
    var running: bool
    /** What the running effect captured. */
    var startedAt: Option<int>
    var base: int
    var baseEpoch: int

    /** The first render: `liveSeconds` is `null` and no interval runs. */
    constructor()
      ensures liveSeconds.None? && !running
    {
      liveSeconds := None;
      running := false;
      startedAt := None;
      base := 0;
      baseEpoch := 0;
    }

    /** The effect runs for a session: the previous interval is cleared;
        without a session or a base, `liveSeconds` is cleared and nothing
        runs; otherwise it captures the start and the base, ticks once at
        `effectNow` and keeps running. `memoNow` is when the base was
        computed. */
    method Start(session: Option<SteamSession>, memoNow: int, effectNow: int)
      modifies this
      ensures var b := BaseElapsedMs(session, memoNow);
        if b.None? then liveSeconds.None? && !running
        else running && startedAt == session.value.startedAt && base == b.value &&
             baseEpoch == effectNow &&
             liveSeconds == Some(TickElapsedMs(startedAt, base, baseEpoch, effectNow) / 1000)
    {
      var b := BaseElapsedMs(session, memoNow);
      if b.None? {
        running := false;
        liveSeconds := None;
        return;
      }
      startedAt := session.value.startedAt;
      base := b.value;
      baseEpoch := effectNow;
      running := true;
      Tick(effectNow);
    }

    /** One second of the interval: the elapsed milliseconds at `now`,
        floored to whole seconds. */
    method Tick(now: int)
      requires running
      modifies this
      ensures liveSeconds == Some(TickElapsedMs(startedAt, base, baseEpoch, now) / 1000)
      ensures liveSeconds.value >= 0
      ensures running && startedAt == old(startedAt) && base == old(base) && baseEpoch == old(baseEpoch)
    {
      liveSeconds := Some(TickElapsedMs(startedAt, base, baseEpoch, now) / 1000);
    }

    /** Unmounting, or a change of session, clears the interval. */
    method Stop()
      modifies this
      ensures !running && liveSeconds == old(liveSeconds)
      ensures startedAt == old(startedAt) && base == old(base) && baseEpoch == old(baseEpoch)
    {
      running := false;
    }
  }

  /** A session with only a start time: the first tick counts from the
      start, and so does every later one. */
  lemma StartedSessionCountsFromStart(start: int, memoNow: int, now: int)
    requires start != 0
    ensures var session := Some(SteamSession(Some(start), None, ""));
      TickElapsedMs(Some(start), BaseElapsedMs(session, memoNow).value, memoNow, now) == Max0(now - start)
  {
  }

  /** A session with only an elapsed count: the first tick, taken when the
      effect runs, shows the count in whole seconds. */
  lemma ElapsedSessionStartsAtBase(ms: nat, effectNow: int)
    ensures TickElapsedMs(None, ms, effectNow, effectNow) / 1000 == ms / 1000
  {
  }

  // ---------------------------------------------------------------------
  // What the widget shows
  // ---------------------------------------------------------------------

  /** `liveLabel`. */
  function LiveLabel(liveSeconds: Option<int>, steam: Option<SteamPresence>): string {
    if liveSeconds.Some? then FormatInt(liveSeconds.value) else SessionLabel(steam)
  }

  /** The large time on the card. */
  function DisplayedTime(steam: Option<SteamPresence>, history: seq<SteamHistoryItem>,
                         liveSeconds: Option<int>): string {
    if IsPlaying(steam) then LiveLabel(liveSeconds, steam)
    else LastSessionLabel(history).GetOr("--:--")
  }

  /** While playing, the live seconds read back from the card (or the session
      label stands in); otherwise the last session or "--:--". */
  lemma DisplayedTimeRule(steam: Option<SteamPresence>, history: seq<SteamHistoryItem>,
                          liveSeconds: Option<int>)
    ensures IsPlaying(steam) && liveSeconds.Some? && liveSeconds.value >= 0 ==>
      ParseTimePart(DisplayedTime(steam, history, liveSeconds)) == liveSeconds.value
    ensures IsPlaying(steam) && liveSeconds.None? ==>
      DisplayedTime(steam, history, liveSeconds) == SessionLabel(steam)
    ensures !IsPlaying(steam) && LastSessionLabel(history).None? ==>
      DisplayedTime(steam, history, liveSeconds) == "--:--"
    ensures !IsPlaying(steam) && LastSessionLabel(history).Some? ==>
      DisplayedTime(steam, history, liveSeconds) == LastSessionLabel(history).value
  {
    if IsPlaying(steam) && liveSeconds.Some? && liveSeconds.value >= 0 {
      ParseFormatSeconds(liveSeconds.value);
    }
  }

  /** `recent.slice(0, 3)`. */
  function RecentItems(recent: seq<SteamRecentItem>): (r: seq<SteamRecentItem>)
    ensures |r| == if |recent| < 3 then |recent| else 3
    ensures forall i :: 0 <= i < |r| ==> r[i] == recent[i]
  {
    Take(recent, 3)
  }
}
