/** The live-presence stream client: the payload types, the pure per-slice
    reducers that each named event applies, the derived progress values, and
    the session object that owns the event source, the reconnect timer and
    the presence slices. */
module Stream {
  import opened Wrappers
  import opened MusicTime

  // ---------------------------------------------------------------------
  // Payloads
  // ---------------------------------------------------------------------

  datatype MusicState = Playing | Paused | Stopped

  /** A music snapshot. `progressPercent` is `None` when it is missing or not
      a finite number; an empty `progressText` stands for a missing one. */
  datatype Music = Music(
    title: string,
    artist: string,
    cover: string,
    progressPercent: Option<real>,
    progressText: string,
    state: MusicState,
    listenUrl: Option<string>,
    timestamp: int)

  datatype MusicHistoryItem = MusicHistoryItem(
    id: string,
    title: string,
    artist: string,
    cover: string,
    listenUrl: string,
    startedAt: string,
    endedAt: Option<string>,
    createdAt: string)

  /** The game presence's `state`: OFFLINE, ONLINE_IDLE, PLAYING, ONLINE and
      UNKNOWN. PLAYING and UNKNOWN are renamed `InGame` and `UnknownState`
      so that they do not clash with `MusicState.Playing`. */
  datatype SteamState = Offline | OnlineIdle | InGame | Online | UnknownState

  datatype SteamProfile = SteamProfile(
    steamId: string,
    nickname: string,
    profileUrl: Option<string>,
    avatar: Option<string>,
    frameUrl: Option<string>,
    backgroundSmall: Option<string>,
    backgroundLarge: Option<string>)

  datatype SteamGame = SteamGame(appId: string, name: string, iconUrl: Option<string>)

  /** A game session; a number that is missing or not finite is `None`. */
  datatype SteamSession = SteamSession(
    startedAt: Option<int>,
    elapsedMs: Option<int>,
    elapsedLabel: string)

  datatype SteamPresence = SteamPresence(
    state: SteamState,
    profile: SteamProfile,
    game: Option<SteamGame>,
    session: Option<SteamSession>,
    lastUpdatedAt: int)

  datatype SteamHistoryItem = SteamHistoryItem(
    id: string,
    appId: string,
    name: string,
    iconUrl: Option<string>,
    startedAt: string,
    endedAt: Option<string>,
    createdAt: string,
    durationMs: Option<int>,
    durationLabel: string)

  datatype SteamRecentItem = SteamRecentItem(
    appId: string,
    name: string,
    iconUrl: Option<string>,
    playtime2WeeksMs: int,
    playtimeForeverMs: int)

  /** The body of `presence.init`; `history` is `None` when it is missing or
      not an array. */
  datatype PresenceInit = PresenceInit(
    music: Option<Music>,
    steam: Option<SteamPresence>,
    history: Option<seq<MusicHistoryItem>>)

  /** What parsing an event's body gave: a value, or a failure (invalid JSON,
      or a body the handler could not read, which throws inside the same
      `try`). A list event's value is `None` when the JSON is not an array;
      `music.updated` and `steam.updated` read a JSON `null` as `None`. */
  datatype Body<T> = Parsed(value: T) | Malformed

  // ---------------------------------------------------------------------
  // The presence slices and their reducers
  // ---------------------------------------------------------------------

  /** Every slice of presence state the session exposes. */
  datatype Presence = Presence(
    music: Option<Music>,
    steam: Option<SteamPresence>,
    steamHistory: seq<SteamHistoryItem>,
    steamRecent: seq<SteamRecentItem>,
    history: seq<MusicHistoryItem>,
    isLoading: bool,
    currentSec: int,
    totalSec: nat,
    isPlaying: bool)

  /** The slices before any event. */
  const InitialPresence := Presence(None, None, [], [], [], true, 0, 0, false)

  /** `Math.round`: the nearest integer, halves rounded up. */
  function RoundHalfUp(x: real): (r: int)
    ensures r as real - 0.5 <= x < r as real + 0.5
  {
    (x + 0.5).Floor
  }

  /** The position a percentage of the known total stands for,
      `(progressPercent / 100) * totalSec`, before rounding. */
  function PercentOf(percent: real, total: nat): real {
    percent / 100.0 * total as real
  }

  /** `applyMusicUpdate`. `p.totalSec` is the total the session had before
      the event (the value `totalSecRef` mirrors). */
  function ApplyMusic(p: Presence, payload: Option<Music>): Presence {
    match payload
    case None => p.(music := None, isPlaying := false)
    case Some(m) =>
      var q := p.(music := Some(m), isPlaying := m.state == Playing);
      if m.progressText != "" then
        var pr := ParseProgress(m.progressText);
        q.(currentSec := pr.current, totalSec := pr.total)
      else if p.totalSec > 0 && m.progressPercent.Some? then
        q.(currentSec := RoundHalfUp(PercentOf(m.progressPercent.value, p.totalSec)))
      else q
  }

  /** `presence.init`. */
  function ReduceInit(p: Presence, body: Body<PresenceInit>): Presence {
    var p := p.(isLoading := false);
    match body
    case Parsed(d) =>
      var q := ApplyMusic(p, d.music).(steam := d.steam);
      if d.history.Some? then q.(history := d.history.value) else q
    case Malformed => p.(music := None, steam := None)
  }

  /** `music.updated`. */
  function ReduceMusic(p: Presence, body: Body<Option<Music>>): Presence {
    var p := p.(isLoading := false);
    match body
    case Parsed(m) => ApplyMusic(p, m)
    case Malformed => p.(music := None)
  }

  /** `steam.updated`. */
  function ReduceSteam(p: Presence, body: Body<Option<SteamPresence>>): Presence {
    var p := p.(isLoading := false);
    match body
    case Parsed(s) => p.(steam := s)
    case Malformed => p.(steam := None)
  }

  /** The list rule the three list events share: an array replaces the list,
      another JSON value leaves it, and a failure empties it. */
  function ReplaceList<T>(current: seq<T>, body: Body<Option<seq<T>>>): seq<T> {
    match body
    case Parsed(Some(xs)) => xs
    case Parsed(None) => current
    case Malformed => []
  }

  /** `steam.history.updated`. */
  function ReduceSteamHistory(p: Presence, body: Body<Option<seq<SteamHistoryItem>>>): Presence {
    p.(isLoading := false, steamHistory := ReplaceList(p.steamHistory, body))
  }

  /** `steam.recent.updated`. */
  function ReduceSteamRecent(p: Presence, body: Body<Option<seq<SteamRecentItem>>>): Presence {
    p.(isLoading := false, steamRecent := ReplaceList(p.steamRecent, body))
  }

  /** `music.history.updated`. */
  function ReduceMusicHistory(p: Presence, body: Body<Option<seq<MusicHistoryItem>>>): Presence {
    p.(isLoading := false, history := ReplaceList(p.history, body))
  }

  /** One tick of the playback interval: `prev + 1`, held at a known total. */
  function TickStep(prev: int, total: nat): (r: int)
    ensures total > 0 ==> r <= total
    ensures total > 0 && prev < total ==> r == prev + 1
    ensures total == 0 ==> r == prev + 1
  {
    if total > 0 && prev >= total then total else prev + 1
  }

  /** `k` ticks in a row. */
  function Ticks(prev: int, total: nat, k: nat): int
    decreases k
  {
    if k == 0 then prev else Ticks(TickStep(prev, total), total, k - 1)
  }

  // ---------------------------------------------------------------------
  // Reconnect backoff and derived values
  // ---------------------------------------------------------------------

  function Pow2(n: nat): (r: nat)
    ensures r >= 1
  {
    if n == 0 then 1 else 2 * Pow2(n - 1)
  }

  /** The reconnect delay after `attempt` failures since the last open:
      `min(1000 * 2^attempt, 10000)` milliseconds. */
  function ReconnectDelay(attempt: nat): (d: nat)
    ensures 1000 <= d <= 10000
  {
    var d := 1000 * Pow2(attempt);
    if d < 10000 then d else 10000
  }

  /** `progressPercent`. */
  function ProgressPercent(currentSec: int, totalSec: nat, music: Option<Music>): (r: real)
    ensures r <= 100.0
    ensures totalSec > 0 && currentSec >= 0 ==> r >= 0.0
    ensures totalSec == 0 ==> 0.0 <= r
    ensures totalSec > 0 && currentSec <= totalSec ==> r * totalSec as real == currentSec as real * 100.0
    ensures totalSec > 0 && currentSec >= totalSec ==> r == 100.0
    ensures totalSec == 0 && (music.None? || music.value.progressPercent.None?) ==> r == 0.0
    ensures totalSec == 0 && music.Some? && music.value.progressPercent.Some? ==>
      var x := music.value.progressPercent.value;
      r == (if x < 0.0 then 0.0 else if x > 100.0 then 100.0 else x)
  {
    if totalSec > 0 then
      var x := currentSec as real / totalSec as real * 100.0;
      if x < 100.0 then x else 100.0
    else if music.Some? && music.value.progressPercent.Some? then
      var x := music.value.progressPercent.value;
      if x < 0.0 then 0.0 else if x > 100.0 then 100.0 else x
    else 0.0
  }

  /** `timeLabel`. */
  function TimeLabel(currentSec: int, totalSec: nat, music: Option<Music>): string {
    if totalSec > 0 then FormatInt(currentSec) + " / " + FormatInt(totalSec)
    else if music.Some? then music.value.progressText
    else "--:--"
  }

  // ---------------------------------------------------------------------
  // Properties of the reducers
  // ---------------------------------------------------------------------

  /** The backoff schedule: 1s, 2s, 4s, 8s, then 10s for ever. */
  lemma DelaySchedule()
    ensures ReconnectDelay(0) == 1000 && ReconnectDelay(1) == 2000
    ensures ReconnectDelay(2) == 4000 && ReconnectDelay(3) == 8000
    ensures ReconnectDelay(4) == 10000 && ReconnectDelay(5) == 10000
    ensures ReconnectDelay(6) == 10000
  {
    assert Pow2(4) == 16;
    assert Pow2(5) == 32;
    assert Pow2(6) == 64;
  }

  /** Each further failure doubles the delay until it reaches the 10s cap. */
  lemma DelayDoubles(n: nat)
    ensures ReconnectDelay(n + 1) == if 2 * ReconnectDelay(n) < 10000 then 2 * ReconnectDelay(n) else 10000
  {
    assert Pow2(n + 1) == 2 * Pow2(n);
  }

  /** From the fifth consecutive failure on the delay is the cap. */
  lemma {:induction false} DelayCapped(n: nat)
    requires n >= 4
    ensures ReconnectDelay(n) == 10000
  {
    if n == 4 {
      DelaySchedule();
    } else {
      DelayCapped(n - 1);
      DelayDoubles(n - 1);
    }
  }

  /** Every named event ends the loading state, whatever its body. */
  lemma EventsEndLoading(p: Presence, i: Body<PresenceInit>, m: Body<Option<Music>>,
                         s: Body<Option<SteamPresence>>, sh: Body<Option<seq<SteamHistoryItem>>>,
                         sr: Body<Option<seq<SteamRecentItem>>>, mh: Body<Option<seq<MusicHistoryItem>>>)
    ensures !ReduceInit(p, i).isLoading && !ReduceMusic(p, m).isLoading
    ensures !ReduceSteam(p, s).isLoading && !ReduceSteamHistory(p, sh).isLoading
    ensures !ReduceSteamRecent(p, sr).isLoading && !ReduceMusicHistory(p, mh).isLoading
  {
  }

  /** A body that fails to parse clears its slice instead of keeping it:
      music for `music.updated`; music and game presence (but not the
      history) for `presence.init`; the whole list for a list event. Nothing
      else changes, not even `isPlaying` or the playback position. */
  lemma MalformedClears(p: Presence)
    ensures ReduceMusic(p, Malformed) == p.(isLoading := false, music := None)
    ensures ReduceInit(p, Malformed) == p.(isLoading := false, music := None, steam := None)
    ensures ReduceSteam(p, Malformed) == p.(isLoading := false, steam := None)
    ensures ReduceSteamHistory(p, Malformed) == p.(isLoading := false, steamHistory := [])
    ensures ReduceSteamRecent(p, Malformed) == p.(isLoading := false, steamRecent := [])
    ensures ReduceMusicHistory(p, Malformed) == p.(isLoading := false, history := [])
  {
  }

  /** A list body that parses to something other than an array keeps the
      list; `steam.updated` with `null` clears the game presence. */
  lemma NonArrayKeepsList(p: Presence)
    ensures ReduceSteamHistory(p, Parsed(None)).steamHistory == p.steamHistory
    ensures ReduceSteamRecent(p, Parsed(None)).steamRecent == p.steamRecent
    ensures ReduceMusicHistory(p, Parsed(None)).history == p.history
    ensures ReduceSteam(p, Parsed(None)).steam == None
  {
  }

  /** A null music payload stops playback but keeps the position. */
  lemma NullMusicKeepsPosition(p: Presence)
    ensures var q := ApplyMusic(p, None);
      q.music == None && !q.isPlaying && q.currentSec == p.currentSec && q.totalSec == p.totalSec
  {
  }

  /** A non-null music payload is stored as the music, and `isPlaying` holds
      exactly when its state is PLAYING, with or without progress text.
      Without text and without a usable percent the position and total stay.
      The `music.updated` handler does the same with a parsed payload. */
  lemma ApplyMusicStores(p: Presence, m: Music)
    ensures ApplyMusic(p, Some(m)).music == Some(m)
    ensures ApplyMusic(p, Some(m)).isPlaying <==> m.state == Playing
    ensures m.progressText == "" && (p.totalSec == 0 || m.progressPercent.None?) ==>
      ApplyMusic(p, Some(m)).currentSec == p.currentSec &&
      ApplyMusic(p, Some(m)).totalSec == p.totalSec
    ensures ReduceMusic(p, Parsed(Some(m))).music == Some(m)
    ensures ReduceMusic(p, Parsed(Some(m))).isPlaying <==> m.state == Playing
  {
  }

  /** A parsed event replaces its slice wholesale: `presence.init` sets the
      music and the game presence, and the history when it is an array;
      `steam.updated` sets the game presence; a list event with an array
      sets its list. */
  lemma ParsedEventsReplace(p: Presence, d: PresenceInit, s: Option<SteamPresence>,
                            sh: seq<SteamHistoryItem>, sr: seq<SteamRecentItem>,
                            mh: seq<MusicHistoryItem>)
    ensures ReduceInit(p, Parsed(d)).steam == d.steam
    ensures ReduceInit(p, Parsed(d)).music == d.music
    ensures ReduceInit(p, Parsed(d)).history == if d.history.Some? then d.history.value else p.history
    ensures ReduceSteam(p, Parsed(s)).steam == s
    ensures ReduceSteamHistory(p, Parsed(Some(sh))).steamHistory == sh
    ensures ReduceSteamRecent(p, Parsed(Some(sr))).steamRecent == sr
    ensures ReduceMusicHistory(p, Parsed(Some(mh))).history == mh
  {
  }

  /** Non-empty progress text wins: the position and total come from it and
      the percent field is ignored. */
  lemma ProgressTextWins(p: Presence, m: Music, percent: Option<real>)
    requires m.progressText != ""
    ensures var q := ApplyMusic(p, Some(m));
      var q' := ApplyMusic(p, Some(m.(progressPercent := percent)));
      q.currentSec == q'.currentSec && q.totalSec == q'.totalSec &&
      Progress(q.currentSec, q.totalSec) == ParseProgress(m.progressText) &&
      (q.isPlaying <==> m.state == Playing)
  {
  }

  /** Without text, a finite percent rescales the known total, which stays. */
  lemma PercentRescales(p: Presence, m: Music)
    requires m.progressText == "" && p.totalSec > 0 && m.progressPercent.Some?
    ensures var q := ApplyMusic(p, Some(m));
      q.totalSec == p.totalSec &&
      q.currentSec as real - 0.5 <= m.progressPercent.value * p.totalSec as real / 100.0 < q.currentSec as real + 0.5
  {
    var x := PercentOf(m.progressPercent.value, p.totalSec);
    assert x == m.progressPercent.value * p.totalSec as real / 100.0;
  }

  /** Applying the same music payload twice leaves the state of applying it
      once. */
  lemma ApplyMusicIdempotent(p: Presence, payload: Option<Music>)
    ensures ApplyMusic(ApplyMusic(p, payload), payload) == ApplyMusic(p, payload)
  {
  }

  /** Delivering the same `presence.init` twice leaves the state of
      delivering it once. */
  lemma InitIdempotent(p: Presence, body: Body<PresenceInit>)
    ensures ReduceInit(ReduceInit(p, body), body) == ReduceInit(p, body)
  {
    if body.Parsed? {
      var d := body.value;
      var once := ApplyMusic(p.(isLoading := false), d.music);
      var q := ReduceInit(p, body);
      ApplyMusicIdempotent(p.(isLoading := false), d.music);
      ApplyMusicCommutes(once, d.music, q.(isLoading := false));
    }
  }

  /** Delivering the same `music.updated` twice leaves the state of
      delivering it once. */
  lemma MusicIdempotent(p: Presence, body: Body<Option<Music>>)
    ensures ReduceMusic(ReduceMusic(p, body), body) == ReduceMusic(p, body)
  {
    if body.Parsed? {
      ApplyMusicIdempotent(p.(isLoading := false), body.value);
    }
  }

  /** Delivering the same Steam or list event twice leaves the state of
      delivering it once. */
  lemma SlicesIdempotent(p: Presence, s: Body<Option<SteamPresence>>,
                         sh: Body<Option<seq<SteamHistoryItem>>>,
                         sr: Body<Option<seq<SteamRecentItem>>>,
                         mh: Body<Option<seq<MusicHistoryItem>>>)
    ensures ReduceSteam(ReduceSteam(p, s), s) == ReduceSteam(p, s)
    ensures ReduceSteamHistory(ReduceSteamHistory(p, sh), sh) == ReduceSteamHistory(p, sh)
    ensures ReduceSteamRecent(ReduceSteamRecent(p, sr), sr) == ReduceSteamRecent(p, sr)
    ensures ReduceMusicHistory(ReduceMusicHistory(p, mh), mh) == ReduceMusicHistory(p, mh)
  {
  }

  /** The music payload writes only the music slice and the playback fields. */
  lemma ApplyMusicFrame(p: Presence, payload: Option<Music>)
    ensures var q := ApplyMusic(p, payload);
      q.steam == p.steam && q.steamHistory == p.steamHistory &&
      q.steamRecent == p.steamRecent && q.history == p.history && q.isLoading == p.isLoading
  {
  }

  /** The music payload reads only the music slice and the playback fields,
      so a change elsewhere passes through it unchanged. */
  lemma ApplyMusicCommutes(p: Presence, payload: Option<Music>, q: Presence)
    requires q.music == p.music && q.currentSec == p.currentSec &&
             q.totalSec == p.totalSec && q.isPlaying == p.isPlaying
    ensures ApplyMusic(q, payload) == ApplyMusic(p, payload).(steam := q.steam,
      steamHistory := q.steamHistory, steamRecent := q.steamRecent,
      history := q.history, isLoading := q.isLoading)
  {
  }

  /** A music event and an event for another slice commute. */
  lemma MusicCommutes(p: Presence, m: Body<Option<Music>>, s: Body<Option<SteamPresence>>,
                      sh: Body<Option<seq<SteamHistoryItem>>>,
                      sr: Body<Option<seq<SteamRecentItem>>>,
                      mh: Body<Option<seq<MusicHistoryItem>>>)
    ensures ReduceSteam(ReduceMusic(p, m), s) == ReduceMusic(ReduceSteam(p, s), m)
    ensures ReduceSteamHistory(ReduceMusic(p, m), sh) == ReduceMusic(ReduceSteamHistory(p, sh), m)
    ensures ReduceSteamRecent(ReduceMusic(p, m), sr) == ReduceMusic(ReduceSteamRecent(p, sr), m)
    ensures ReduceMusicHistory(ReduceMusic(p, m), mh) == ReduceMusic(ReduceMusicHistory(p, mh), m)
  {
    MusicCommutesWithGame(p, m, s, sh);
    MusicCommutesWithLists(p, m, sr, mh);
  }

  lemma MusicCommutesWithGame(p: Presence, m: Body<Option<Music>>, s: Body<Option<SteamPresence>>,
                              sh: Body<Option<seq<SteamHistoryItem>>>)
    ensures ReduceSteam(ReduceMusic(p, m), s) == ReduceMusic(ReduceSteam(p, s), m)
    ensures ReduceSteamHistory(ReduceMusic(p, m), sh) == ReduceMusic(ReduceSteamHistory(p, sh), m)
  {
    if m.Parsed? {
      var base := p.(isLoading := false);
      ApplyMusicCommutes(base, m.value, ReduceSteam(p, s));
      ApplyMusicCommutes(base, m.value, ReduceSteamHistory(p, sh));
    }
  }

  lemma MusicCommutesWithLists(p: Presence, m: Body<Option<Music>>,
                               sr: Body<Option<seq<SteamRecentItem>>>,
                               mh: Body<Option<seq<MusicHistoryItem>>>)
    ensures ReduceSteamRecent(ReduceMusic(p, m), sr) == ReduceMusic(ReduceSteamRecent(p, sr), m)
    ensures ReduceMusicHistory(ReduceMusic(p, m), mh) == ReduceMusic(ReduceMusicHistory(p, mh), m)
  {
    if m.Parsed? {
      var base := p.(isLoading := false);
      ApplyMusicCommutes(base, m.value, ReduceSteamRecent(p, sr));
      ApplyMusicCommutes(base, m.value, ReduceMusicHistory(p, mh));
    }
  }

  /** Events for the game slice and for the lists commute. */
  lemma ListsCommute(p: Presence, s: Body<Option<SteamPresence>>,
                     sh: Body<Option<seq<SteamHistoryItem>>>,
                     sr: Body<Option<seq<SteamRecentItem>>>,
                     mh: Body<Option<seq<MusicHistoryItem>>>)
    ensures ReduceSteamHistory(ReduceSteam(p, s), sh) == ReduceSteam(ReduceSteamHistory(p, sh), s)
    ensures ReduceSteamRecent(ReduceSteam(p, s), sr) == ReduceSteam(ReduceSteamRecent(p, sr), s)
    ensures ReduceMusicHistory(ReduceSteam(p, s), mh) == ReduceSteam(ReduceMusicHistory(p, mh), s)
  {
  }

  /** With a known total, `k` ticks reach `min(prev + k, total)`: from a
      position at or below the total, and for any `k > 0` also from a position
      above it (text "5:00/3:00"), which the first tick brings down to the
      total. With no total they add `k`. */
  lemma {:induction false} TicksClosedForm(prev: int, total: nat, k: nat)
    decreases k
    ensures total > 0 && (prev <= total || k > 0) ==>
      Ticks(prev, total, k) == if prev + k < total then prev + k else total
    ensures total == 0 ==> Ticks(prev, total, k) == prev + k
  {
    if k > 0 {
      TicksClosedForm(TickStep(prev, total), total, k - 1);
    }
  }

  /** The "a / b" label parses back to the position and the total. */
  lemma TimeLabelParses(currentSec: int, totalSec: nat, music: Option<Music>)
    requires totalSec > 0 && currentSec >= 0
    ensures ParseProgress(TimeLabel(currentSec, totalSec, music)) == Progress(currentSec, totalSec)
  {
    FormatIntClock(currentSec);
    FormatIntClock(totalSec);
    ParseProgressOfLabel(currentSec, totalSec);
  }

  /** Without a known total the label is the music's own text, or "--:--"
      when there is no music. */
  lemma TimeLabelWithoutTotal(currentSec: int, music: Option<Music>)
    ensures music.None? ==> TimeLabel(currentSec, 0, music) == "--:--"
    ensures music.Some? ==> TimeLabel(currentSec, 0, music) == music.value.progressText
  {
  }

  /** A server label already in "a / b" form with a non-zero total is shown
      back unchanged after `music.updated` delivers it. */
  lemma {:induction false} ServerLabelShownBack(p: Presence, m: Music, a: nat, b: nat)
    requires b > 0 && m.progressText == FormatClock(a) + " / " + FormatClock(b)
    ensures var q := ReduceMusic(p, Parsed(Some(m)));
      TimeLabel(q.currentSec, q.totalSec, q.music) == m.progressText
  {
    ParseProgressOfLabel(a, b);
    FormatIntClock(a);
    FormatIntClock(b);
  }

  // ---------------------------------------------------------------------
  // The session
  // ---------------------------------------------------------------------

  datatype ConnectionState = Connecting | Live | Reconnecting

  /** The transport side of the session, as one value. */
  datatype Link = Link(
    connection: ConnectionState,
    attempt: nat,
    pendingDelay: Option<nat>,
    sources: seq<bool>,
    current: Option<nat>,
    mounted: bool)

  /** The current source of a link is open. */
  predicate LinkOpen(l: Link) {
    l.current.Some? && l.current.value < |l.sources| && l.sources[l.current.value]
  }

  /** Only the current source can be open, and after teardown nothing is
      open and no reconnect is pending. */
  ghost predicate LinkValid(l: Link) {
    (l.current.Some? ==> l.current.value < |l.sources|) &&
    (forall i :: 0 <= i < |l.sources| && l.sources[i] ==> l.current == Some(i)) &&
    (!l.mounted ==> l.pendingDelay.None? && !LinkOpen(l))
  }

  /** `sources` with the one at `current` closed. */
  function CloseAt(sources: seq<bool>, current: Option<nat>): (r: seq<bool>)
    ensures |r| == |sources|
  {
    if current.Some? && current.value < |sources| then sources[current.value := false] else sources
  }

  /** One `useStream` instance. `sources` records every event source the
      session has opened (`true` while it is open) and `current` is
      `eventSourceRef`; `pendingDelay` is `reconnectTimeoutRef`, holding the
      delay of the scheduled reconnect; `mounted` is false after teardown. */
  class Session {
    var connection: ConnectionState
    var attempt: nat
    var pendingDelay: Option<nat>
    var sources: seq<bool>
    var current: Option<nat>
    var mounted: bool

    var music: Option<Music>
    var steam: Option<SteamPresence>
    var steamHistory: seq<SteamHistoryItem>
    var steamRecent: seq<SteamRecentItem>
    var history: seq<MusicHistoryItem>
    var isLoading: bool
    var currentSec: int
    var totalSec: nat
    var isPlaying: bool

    /** The link invariant, `LinkValid`, holds of this session. */
    ghost predicate Valid()
      reads this
    {
      LinkValid(LinkState())
    }

    /** The current source is open, so it can deliver events. */
    predicate SourceOpen()
      reads this
    {
      LinkOpen(LinkState())
    }

    function State(): Presence
      reads this
    {
      Presence(music, steam, steamHistory, steamRecent, history, isLoading, currentSec, totalSec, isPlaying)
    }

    function LinkState(): Link
      reads this
    {
      Link(connection, attempt, pendingDelay, sources, current, mounted)
    }

    /** No reconnect is pending while a source is open. */
    ghost predicate TimerOnlyWhenClosed()
      reads this
    {
      pendingDelay.Some? ==> !SourceOpen()
    }

    /** Mounting: the initial state, then `connect()`. */
    constructor ()
      ensures Valid() && mounted && TimerOnlyWhenClosed()
      ensures State() == InitialPresence
      ensures connection == Connecting && attempt == 0 && pendingDelay == None
      ensures sources == [true] && current == Some(0)
    {
      connection := Connecting;
      attempt := 0;
      pendingDelay := None;
      sources := [];
      current := None;
      mounted := true;
      music := None;
      steam := None;
      steamHistory := [];
      steamRecent := [];
      history := [];
      isLoading := true;
      currentSec := 0;
      totalSec := 0;
      isPlaying := false;
      new;
      Connect();
    }

    /** `connect()`: closes the current source, shows `reconnecting` after a
        failure and `connecting` otherwise, and opens a new current source. */
    method Connect()
      requires Valid() && mounted
      modifies this
      ensures Valid() && SourceOpen()
      ensures sources == CloseAt(old(sources), old(current)) + [true]
      ensures current == Some(|old(sources)|)
      ensures connection == (if attempt > 0 then Reconnecting else Connecting)
      ensures attempt == old(attempt) && pendingDelay == old(pendingDelay) && mounted
      ensures State() == old(State())
    {
      if current.Some? {
        sources := CloseAt(sources, current);
      }
      connection := if attempt > 0 then Reconnecting else Connecting;
      current := Some(|sources|);
      sources := sources + [true];
    }

    /** The `open` event: live, and the backoff starts over. */
    method OnOpen()
      requires Valid() && SourceOpen()
      modifies this
      ensures Valid() && State() == old(State())
      ensures LinkState() == old(LinkState()).(connection := Live, attempt := 0)
      ensures old(TimerOnlyWhenClosed()) ==> TimerOnlyWhenClosed()
    {
      connection := Live;
      attempt := 0;
    }

    /** The `error` event: closes the source and shows `reconnecting`; unless
        a reconnect is already pending, schedules exactly one, after
        `ReconnectDelay(attempt)`, and counts the attempt. */
    method OnError()
      requires Valid() && SourceOpen()
      modifies this
      ensures Valid() && !SourceOpen() && State() == old(State())
      ensures sources == CloseAt(old(sources), old(current)) && current == old(current)
      ensures connection == Reconnecting && mounted
      ensures old(pendingDelay).Some? ==> pendingDelay == old(pendingDelay) && attempt == old(attempt)
      ensures old(pendingDelay).None? ==>
        pendingDelay == Some(ReconnectDelay(old(attempt))) && attempt == old(attempt) + 1
      ensures TimerOnlyWhenClosed()
    {
      connection := Reconnecting;
      sources := CloseAt(sources, current);
      if pendingDelay.Some? {
        return;
      }
      var delay := ReconnectDelay(attempt);
      attempt := attempt + 1;
      pendingDelay := Some(delay);
    }

    /** The reconnect timer fires: the slot is cleared, then `connect()`. */
    method OnTimerFire()
      requires Valid() && mounted && pendingDelay.Some?
      modifies this
      ensures Valid() && SourceOpen() && TimerOnlyWhenClosed()
      ensures pendingDelay == None && attempt == old(attempt) && mounted
      ensures sources == CloseAt(old(sources), old(current)) + [true]
      ensures current == Some(|old(sources)|)
      ensures connection == (if attempt > 0 then Reconnecting else Connecting)
      ensures State() == old(State())
    {
      pendingDelay := None;
      Connect();
    }

    /** Unmounting: the current source is closed and a pending reconnect is
        cancelled, so no callback runs afterwards. */
    method Teardown()
      requires Valid()
      modifies this
      ensures Valid() && !mounted && !SourceOpen() && pendingDelay == None
      ensures forall i :: 0 <= i < |sources| ==> !sources[i]
      ensures sources == CloseAt(old(sources), old(current)) && current == old(current)
      ensures State() == old(State())
      ensures connection == old(connection) && attempt == old(attempt)
    {
      if current.Some? {
        sources := CloseAt(sources, current);
      }
      pendingDelay := None;
      mounted := false;
    }

    /** `applyMusicUpdate`. */
    method ApplyMusicUpdate(payload: Option<Music>)
      requires Valid()
      modifies this
      ensures Valid() && LinkState() == old(LinkState())
      ensures State() == ApplyMusic(old(State()), payload)
    {
      // The four setters of the update, computed first and applied together.
      var newMusic, newPlaying, newCurrent, newTotal := None, false, currentSec, totalSec;
      match payload {
        case None =>
        case Some(m) =>
          newMusic, newPlaying := Some(m), m.state == Playing;
          if m.progressText != "" {
            var pr := ParseProgress(m.progressText);
            newCurrent, newTotal := pr.current, pr.total;
          } else if totalSec > 0 && m.progressPercent.Some? {
            newCurrent := RoundHalfUp(PercentOf(m.progressPercent.value, totalSec));
          }
      }
      ghost var link := LinkState();
      music, isPlaying, currentSec, totalSec := newMusic, newPlaying, newCurrent, newTotal;
      assert LinkState() == link;
    }

    method OnPresenceInit(body: Body<PresenceInit>)
      requires Valid() && SourceOpen()
      modifies this
      ensures Valid() && LinkState() == old(LinkState())
      ensures State() == ReduceInit(old(State()), body)
    {
      isLoading := false;
      match body
      case Parsed(d) =>
        ApplyMusicUpdate(d.music);
        steam := d.steam;
        if d.history.Some? {
          history := d.history.value;
        }
      case Malformed =>
        music := None;
        steam := None;
    }

    method OnMusicUpdated(body: Body<Option<Music>>)
      requires Valid() && SourceOpen()
      modifies this
      ensures Valid() && LinkState() == old(LinkState())
      ensures State() == ReduceMusic(old(State()), body)
    {
      isLoading := false;
      match body
      case Parsed(m) => ApplyMusicUpdate(m);
      case Malformed => music := None;
    }

    method OnSteamUpdated(body: Body<Option<SteamPresence>>)
      requires Valid() && SourceOpen()
      modifies this
      ensures Valid() && LinkState() == old(LinkState())
      ensures State() == ReduceSteam(old(State()), body)
    {
      isLoading := false;
      match body
      case Parsed(s) => steam := s;
      case Malformed => steam := None;
    }

    method OnSteamHistoryUpdated(body: Body<Option<seq<SteamHistoryItem>>>)
      requires Valid() && SourceOpen()
      modifies this
      ensures Valid() && LinkState() == old(LinkState())
      ensures State() == ReduceSteamHistory(old(State()), body)
    {
      isLoading := false;
      match body
      case Parsed(Some(xs)) => steamHistory := xs;
      case Parsed(None) =>
      case Malformed => steamHistory := [];
    }

    method OnSteamRecentUpdated(body: Body<Option<seq<SteamRecentItem>>>)
      requires Valid() && SourceOpen()
      modifies this
      ensures Valid() && LinkState() == old(LinkState())
      ensures State() == ReduceSteamRecent(old(State()), body)
    {
      isLoading := false;
      match body
      case Parsed(Some(xs)) => steamRecent := xs;
      case Parsed(None) =>
      case Malformed => steamRecent := [];
    }

    method OnMusicHistoryUpdated(body: Body<Option<seq<MusicHistoryItem>>>)
      requires Valid() && SourceOpen()
      modifies this
      ensures Valid() && LinkState() == old(LinkState())
      ensures State() == ReduceMusicHistory(old(State()), body)
    {
      isLoading := false;
      match body
      case Parsed(Some(xs)) => history := xs;
      case Parsed(None) =>
      case Malformed => history := [];
    }

    /** One second of the playback interval, which runs only while playing. */
    method Tick()
      requires Valid() && mounted && isPlaying
      modifies this
      ensures Valid() && LinkState() == old(LinkState())
      ensures State() == old(State()).(currentSec := TickStep(old(currentSec), totalSec))
      ensures totalSec > 0 ==> currentSec <= totalSec
    {
      if totalSec > 0 && currentSec >= totalSec {
        currentSec := totalSec;
      } else {
        currentSec := currentSec + 1;
      }
    }
  }

  /** Three failures with no successful open between them wait 1s, 2s, 4s. */
  method ReconnectScenario() {
    DelaySchedule();
    var s := new Session();
    s.OnError();
    assert s.pendingDelay == Some(1000);
    s.OnTimerFire();
    s.OnError();
    assert s.pendingDelay == Some(2000);
    s.OnTimerFire();
    s.OnError();
    assert s.pendingDelay == Some(4000);
    s.OnTimerFire();
    s.OnOpen();
    assert s.attempt == 0 && s.connection == Live;
    s.OnError();
    assert s.pendingDelay == Some(1000);
  }
}
