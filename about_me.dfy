/** The status badge and avatar of the about-me card: a running game comes
    first, then a track that is not stopped, else offline. */
module AboutMe {
  import opened Wrappers
  import opened Stream
  import SteamWidget

  /** The badge: its text and its two class names. */
  datatype Badge = Badge(text: string, dotClassName: string, badgeClassName: string)

  const PlayingBadge := Badge("Playing", "bg-sky-400", "border-sky-300/30 bg-sky-500/10 text-sky-300")
  const WorkingBadge := Badge("Working", "bg-emerald-400", "border-emerald-300/30 bg-emerald-500/10 text-emerald-300")
  const OfflineBadge := Badge("Offline", "bg-slate-400", "border-foreground/15 bg-white/5 text-foreground/80")

  /** `getStatus`. */
  function Status(music: Option<Music>, steam: Option<SteamPresence>): Badge {
    if steam.Some? && steam.value.state == InGame then PlayingBadge
    else if music.Some? && music.value.state != Stopped then WorkingBadge
    else OfflineBadge
  }

  datatype Avatar = WithLaptop | Waving

  /** The laptop emoji while there is any music, else the waving one. */
  function AvatarOf(music: Option<Music>): Avatar {
    if music.Some? then WithLaptop else Waving
  }

  /** The badge is always one of the three, and each has its exact
      condition: a running game; else a playing or paused track; else
      offline. */
  lemma StatusPriority(music: Option<Music>, steam: Option<SteamPresence>)
    ensures Status(music, steam) in {PlayingBadge, WorkingBadge, OfflineBadge}
    ensures Status(music, steam).text == "Playing" <==> steam.Some? && steam.value.state == InGame
    ensures Status(music, steam).text == "Working" <==>
      !(steam.Some? && steam.value.state == InGame) && music.Some? && music.value.state in {Playing, Paused}
    ensures Status(music, steam).text == "Offline" <==>
      !(steam.Some? && steam.value.state == InGame) && (music.None? || music.value.state == Stopped)
  {
  }

  /** A game wins whatever the music is. */
  lemma GameWinsOverMusic(music: Option<Music>, other: Option<Music>, steam: Option<SteamPresence>)
    requires steam.Some? && steam.value.state == InGame
    ensures Status(music, steam) == Status(other, steam) == PlayingBadge
  {
  }

  /** The avatar follows the music alone, so a stopped track shows the
      offline badge next to the laptop. */
  lemma StoppedTrackOffline(m: Music, steam: Option<SteamPresence>)
    requires m.state == Stopped && !(steam.Some? && steam.value.state == InGame)
    ensures Status(Some(m), steam) == OfflineBadge && AvatarOf(Some(m)) == WithLaptop
  {
  }

  /** The laptop is shown exactly when there is music. */
  lemma AvatarRule(music: Option<Music>)
    ensures AvatarOf(music) == WithLaptop <==> music.Some?
  {
  }

  /** Whenever the game card counts as playing, this badge says "Playing";
      the badge also says so for the PLAYING state without a game, which
      the game card does not count. */
  lemma BadgeAgreesWithGameCard(music: Option<Music>, p: SteamPresence)
    ensures SteamWidget.IsPlaying(Some(p)) ==> Status(music, Some(p)) == PlayingBadge
    ensures p.state == InGame && p.game.None? ==>
      Status(music, Some(p)) == PlayingBadge && !SteamWidget.IsPlaying(Some(p))
  {
  }
}
