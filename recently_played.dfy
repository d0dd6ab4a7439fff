/** The recently-played list: the music history without the track that is
    playing now, cut to the four shown on the card and the nine shown in
    the dialog. */
module RecentlyPlayed {
  import opened Wrappers
  import opened JsText
  import opened Stream

  /** `isSameTrack`: a history entry is the current track when title, artist
      and listen URL all agree. */
  predicate IsSameTrack(current: Option<Music>, item: MusicHistoryItem) {
    current.Some? &&
    current.value.title == item.title &&
    current.value.artist == item.artist &&
    current.value.listenUrl == Some(item.listenUrl)
  }

  /** `items.filter((item) => !isSameTrack(current, item))`. */
  function Filtered(items: seq<MusicHistoryItem>, current: Option<Music>): (r: seq<MusicHistoryItem>)
    ensures |r| <= |items|
    ensures forall i :: 0 <= i < |r| ==> r[i] in items && !IsSameTrack(current, r[i])
  {
    if items == [] then []
    else
      var rest := Filtered(items[1..], current);
      assert forall x :: x in items[1..] ==> x in items;
      if IsSameTrack(current, items[0]) then rest else [items[0]] + rest
  }

  /** An entry survives exactly when it is listed and is not the current
      track. */
  lemma {:induction false} FilteredMembers(items: seq<MusicHistoryItem>, current: Option<Music>,
                                           x: MusicHistoryItem)
    ensures x in Filtered(items, current) <==> x in items && !IsSameTrack(current, x)
  {
    if items != [] {
      FilteredMembers(items[1..], current, x);
      assert items == [items[0]] + items[1..];
    }
  }

  /** Filtering keeps the order: filtering two lists one after the other is
      filtering their concatenation. */
  lemma {:induction false} FilteredAppend(a: seq<MusicHistoryItem>, b: seq<MusicHistoryItem>,
                                          current: Option<Music>)
    ensures Filtered(a + b, current) == Filtered(a, current) + Filtered(b, current)
  {
    if a != [] {
      assert (a + b)[0] == a[0];
      assert (a + b)[1..] == a[1..] + b;
      FilteredAppend(a[1..], b, current);
      if IsSameTrack(current, a[0]) {
        assert Filtered(a + b, current) == Filtered(a[1..] + b, current);
      } else {
        assert Filtered(a + b, current) == [a[0]] + Filtered(a[1..] + b, current);
        assert Filtered(a, current) == [a[0]] + Filtered(a[1..], current);
      }
    } else {
      assert a + b == b;
    }
  }

  /** When no entry is the current track, nothing is filtered out. */
  lemma {:induction false} FilteredNoMatch(items: seq<MusicHistoryItem>, current: Option<Music>)
    requires forall i :: 0 <= i < |items| ==> !IsSameTrack(current, items[i])
    ensures Filtered(items, current) == items
  {
    if items != [] {
      FilteredNoMatch(items[1..], current);
    }
  }

  /** Without a current track, or with one that has no listen URL (history
      entries always carry one), the list comes back whole. */
  lemma FilteredWithoutMatchable(items: seq<MusicHistoryItem>, current: Option<Music>)
    requires current.None? || current.value.listenUrl.None?
    ensures Filtered(items, current) == items
  {
    FilteredNoMatch(items, current);
  }

  /** Matching ignores the entry's id, cover and timestamps. */
  lemma MatchIgnoresOtherFields(current: Option<Music>, item: MusicHistoryItem,
                                id: string, cover: string, startedAt: string,
                                endedAt: Option<string>, createdAt: string)
    ensures IsSameTrack(current, item) ==
      IsSameTrack(current, item.(id := id, cover := cover, startedAt := startedAt,
                                 endedAt := endedAt, createdAt := createdAt))
  {
  }

  /** `filtered.slice(0, 4)`: the card. */
  function Trimmed(filtered: seq<MusicHistoryItem>): seq<MusicHistoryItem> {
    Take(filtered, 4)
  }

  /** `filtered.slice(0, 9)`: the dialog. */
  function ModalItems(filtered: seq<MusicHistoryItem>): seq<MusicHistoryItem> {
    Take(filtered, 9)
  }

  /** The card shows at most four entries, the dialog at most nine, and the
      card's entries are the first ones of the dialog. */
  lemma CardIsPrefixOfDialog(items: seq<MusicHistoryItem>, current: Option<Music>)
    ensures var f := Filtered(items, current);
      |Trimmed(f)| == (if |f| < 4 then |f| else 4) &&
      |ModalItems(f)| == (if |f| < 9 then |f| else 9) &&
      Trimmed(f) == ModalItems(f)[..|Trimmed(f)|]
  {
  }
}
