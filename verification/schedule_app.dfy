/**
 * The conference schedule widget: the favourites toggle, the colours of a track, the
 * order in which track rows are shown, and what a row and a talk card show.
 */
module ScheduleApp {
  import opened Wrappers
  import opened Sequences
  import opened Ordering
  import Schedule

  // ---------------------------------------------------------------------------------------
  // Favourites

  /** The favourites after toggling `id`: removed when it was there, added otherwise. */
  function ToggleFavorite(favorites: set<string>, id: string): (r: set<string>)
    ensures id in r <==> id !in favorites
    ensures forall x :: x != id ==> (x in r <==> x in favorites)
  {
    if id in favorites then favorites - {id} else favorites + {id}
  }

  /** Toggling the same talk twice gives back the favourites one started from. */
  lemma ToggleTwice(favorites: set<string>, id: string)
    ensures ToggleFavorite(ToggleFavorite(favorites, id), id) == favorites
  {
  }

  /** A toggle changes the number of favourites by exactly one. */
  lemma ToggleSize(favorites: set<string>, id: string)
    ensures id in favorites ==> |ToggleFavorite(favorites, id)| == |favorites| - 1
    ensures id !in favorites ==> |ToggleFavorite(favorites, id)| == |favorites| + 1
  {
  }

  /** A JavaScript `Set` of talk ids, updated in place by `add` and `delete`. */
  class IdSet {
    var elems: set<string>

    /** `new Set(other)`: a new set with the same ids. */
    constructor Copy(other: IdSet)
      ensures elems == other.elems
    {
      elems := other.elems;
    }

    /** `new Set()` */
    constructor Empty()
      ensures elems == {}
    {
      elems := {};
    }

    function Has(id: string): (b: bool)
      reads this
      ensures b <==> id in elems
    {
      id in elems
    }

    method Add(id: string)
      modifies this
      ensures elems == old(elems) + {id}
    {
      elems := elems + {id};
    }

    method Delete(id: string)
      modifies this
      ensures elems == old(elems) - {id}
    {
      elems := elems - {id};
    }
  }

  /** The favourites state of the widget. */
  class Favorites {
    var favorites: IdSet

    constructor ()
      ensures fresh(favorites) && favorites.elems == {}
    {
      favorites := new IdSet.Empty();
    }

    /**
     * `handleFavToggle(id)`: copies the current set, adds or deletes `id` on the copy and
     * makes the copy the state. The set held before is left as it was.
     */
    method HandleFavToggle(id: string)
      modifies this
      ensures fresh(favorites)
      ensures favorites.elems == ToggleFavorite(old(favorites.elems), id)
      ensures old(favorites).elems == old(favorites.elems)
    {
      var newFavorites := new IdSet.Copy(favorites);
      if newFavorites.Has(id) {
        newFavorites.Delete(id);
      } else {
        newFavorites.Add(id);
      }
      favorites := newFavorites;
    }
  }

  // ---------------------------------------------------------------------------------------
  // Track colours

  datatype TrackColors = TrackColors(bg: string, text: string, border: string)

  const DEFAULT_TRACK := "General"

  /** `TRACK_COLORS` */
  const TRACK_COLORS: map<string, TrackColors> := map[
    "Mobile Development" := TrackColors("rgba(59, 130, 246, 0.1)", "#2563eb", "rgba(59, 130, 246, 0.3)"),
    "ML/AI" := TrackColors("rgba(168, 85, 247, 0.1)", "#9333ea", "rgba(168, 85, 247, 0.3)"),
    "Data Engineering" := TrackColors("rgba(34, 197, 94, 0.1)", "#16a34a", "rgba(34, 197, 94, 0.3)"),
    "General" := TrackColors("rgba(107, 114, 128, 0.1)", "#6b7280", "rgba(107, 114, 128, 0.3)")
  ]

  /**
   * `TRACK_COLORS[track] || TRACK_COLORS["General"]` as intended: a track's own colours,
   * the grey of "General" for any other track.
   */
  function ColorsFor(track: string): (c: TrackColors)
    ensures c in TRACK_COLORS.Values
    ensures track !in TRACK_COLORS ==> c == TRACK_COLORS[DEFAULT_TRACK]
  {
    if track in TRACK_COLORS then TRACK_COLORS[track] else TRACK_COLORS[DEFAULT_TRACK]
  }

  /** Every track with a palette of its own keeps it; the others all share the "General" one. */
  lemma ColorsOfKnownTracks(track: string)
    requires track in TRACK_COLORS
    ensures ColorsFor(track) == TRACK_COLORS[track]
  {
  }

  /**
   * The lookup as written, on a plain object literal: a track named like a member of
   * `Object.prototype` finds that member, which is truthy, so there is no fallback and the
   * badge gets no colours (`None`).
   */
  function ColorsAsWritten(track: string): (c: Option<TrackColors>)
    ensures c.None? <==> track !in TRACK_COLORS && Schedule.Inherited(track)
    ensures c.Some? ==> c.value == ColorsFor(track)
  {
    if track in TRACK_COLORS then Some(TRACK_COLORS[track])
    else if Schedule.Inherited(track) then None
    else Some(TRACK_COLORS[DEFAULT_TRACK])
  }

  /** A track called "toString" gets no colours as written, and the "General" ones as intended. */
  lemma InheritedTrackHasNoColors()
    ensures ColorsAsWritten("toString").None?
    ensures ColorsFor("toString") == TRACK_COLORS[DEFAULT_TRACK]
  {
    assert Schedule.Inherited("toString");
  }

  // ---------------------------------------------------------------------------------------
  // Track order

  /** `TRACK_ORDER`: the tracks shown first, in this order. */
  const TRACK_ORDER: seq<string> := ["Mobile Development", "ML/AI", "Data Engineering"]

  /** `Object.keys(groups).filter((t) => !TRACK_ORDER.includes(t))`: the other group keys, in order. */
  function RemainingTracks(keys: seq<string>): (r: seq<string>)
    ensures forall x :: x in r <==> x in keys && x !in TRACK_ORDER
    ensures NoDups(keys) ==> NoDups(r)
  {
    if keys == [] then []
    else
      var init := keys[..|keys| - 1];
      var last := keys[|keys| - 1];
      assert keys == init + [last];
      var rest := RemainingTracks(init);
      if last in TRACK_ORDER then rest else rest + [last]
  }

  /** `[...TRACK_ORDER, ...remainingTracks.sort()]`: the tracks in the order their rows appear. */
  function DisplayedTracks(keys: seq<string>): seq<string> {
    TRACK_ORDER + Sort(RemainingTracks(keys))
  }

  /** The three ordered tracks are distinct. */
  lemma TrackOrderDistinct()
    ensures NoDups(TRACK_ORDER)
  {
    assert |TRACK_ORDER[0]| == 18 && |TRACK_ORDER[1]| == 5 && |TRACK_ORDER[2]| == 16;
  }

  /** Two duplicate-free sequences with no element in common concatenate to a duplicate-free one. */
  lemma ConcatNoDups(a: seq<string>, b: seq<string>)
    requires NoDups(a) && NoDups(b) && forall x :: x in b ==> x !in a
    ensures NoDups(a + b)
  {
    var c := a + b;
    forall i, j | 0 <= i < j < |c| ensures c[i] != c[j] {
      if i < |a| <= j {
        assert c[i] == a[i] && c[j] == b[j - |a|];
        assert b[j - |a|] in b;
      } else if |a| <= i {
        assert c[i] == b[i - |a|] && c[j] == b[j - |a|];
      } else {
        assert c[i] == a[i] && c[j] == a[j];
      }
    }
  }

  /**
   * The rows follow `TRACK_ORDER` first, then the other group keys in ascending order;
   * every group key and every ordered track appears, and none twice.
   */
  lemma DisplayOrder(keys: seq<string>)
    requires NoDups(keys)
    ensures var r := DisplayedTracks(keys);
      r[..|TRACK_ORDER|] == TRACK_ORDER && Sorted(r[|TRACK_ORDER|..])
    ensures NoDups(DisplayedTracks(keys))
    ensures forall x :: x in DisplayedTracks(keys) <==> x in TRACK_ORDER || x in keys
  {
    var rest := RemainingTracks(keys);
    var sorted := Sort(rest);
    var r := DisplayedTracks(keys);
    SortElements(rest);
    SortNoDups(rest);
    assert r[|TRACK_ORDER|..] == sorted;
    assert r[..|TRACK_ORDER|] == TRACK_ORDER;
    TrackOrderDistinct();
    ConcatNoDups(TRACK_ORDER, sorted);
  }

  // ---------------------------------------------------------------------------------------
  // Rows and cards

  /** `groups[track] || []`: a track without a group has no talks. */
  function TalksOf(groups: map<string, seq<Schedule.Talk>>, track: string): (talks: seq<Schedule.Talk>)
    ensures track !in groups ==> talks == []
  {
    if track in groups then groups[track] else []
  }

  /**
   * The track rows that render, in display order: `TrackRow` renders nothing for a track
   * without talks.
   */
  function Rows(groups: map<string, seq<Schedule.Talk>>, tracks: seq<string>): (rows: seq<(string, seq<Schedule.Talk>)>)
    ensures forall i :: 0 <= i < |rows| ==>
      rows[i].1 != [] && rows[i].1 == TalksOf(groups, rows[i].0) && rows[i].0 in tracks
  {
    if tracks == [] then []
    else
      var init := tracks[..|tracks| - 1];
      var t := tracks[|tracks| - 1];
      assert forall u :: u in init ==> u in tracks;
      var rows := Rows(groups, init);
      if TalksOf(groups, t) == [] then rows else rows + [(t, TalksOf(groups, t))]
  }

  /** Every track with talks has a row. */
  lemma {:induction false} RowsCover(groups: map<string, seq<Schedule.Talk>>, tracks: seq<string>, t: string)
    requires t in tracks && TalksOf(groups, t) != []
    ensures exists i :: 0 <= i < |Rows(groups, tracks)| && Rows(groups, tracks)[i].0 == t
  {
    var init := tracks[..|tracks| - 1];
    var last := tracks[|tracks| - 1];
    var rows := Rows(groups, init);
    assert tracks == init + [last];
    if t == last {
      assert Rows(groups, tracks)[|rows|].0 == t;
    } else {
      assert t in init;
      RowsCover(groups, init, t);
      var i :| 0 <= i < |rows| && rows[i].0 == t;
      assert Rows(groups, tracks)[i] == rows[i];
    }
  }

  /** Over duplicate-free tracks no two rows show the same track. */
  lemma {:induction false} RowsDistinct(groups: map<string, seq<Schedule.Talk>>, tracks: seq<string>)
    requires NoDups(tracks)
    ensures forall i, j :: 0 <= i < j < |Rows(groups, tracks)| ==> Rows(groups, tracks)[i].0 != Rows(groups, tracks)[j].0
  {
    if tracks != [] {
      var init := tracks[..|tracks| - 1];
      var last := tracks[|tracks| - 1];
      assert tracks == init + [last];
      assert NoDups(init) && last !in init;
      RowsDistinct(groups, init);
      var rows := Rows(groups, init);
      var r := Rows(groups, tracks);
      forall i, j | 0 <= i < j < |r| ensures r[i].0 != r[j].0 {
        assert r[i] == rows[i];
        if j < |rows| {
          assert r[j] == rows[j];
        } else {
          assert r[j].0 == last;
          assert rows[i].0 in init;
        }
      }
    }
  }

  /** The rows' tracks are tracks of `tracks`, listed in the order they first occur there. */
  predicate InTrackOrder(rows: seq<(string, seq<Schedule.Talk>)>, tracks: seq<string>) {
    forall i, j :: 0 <= i < j < |rows| ==>
      rows[i].0 in tracks && rows[j].0 in tracks && FirstIndex(tracks, rows[i].0) < FirstIndex(tracks, rows[j].0)
  }

  /** Over duplicate-free tracks the rows come in the order of `tracks`. */
  lemma {:induction false} RowsInTrackOrder(groups: map<string, seq<Schedule.Talk>>, tracks: seq<string>)
    requires NoDups(tracks)
    ensures InTrackOrder(Rows(groups, tracks), tracks)
  {
    if tracks != [] {
      var init := tracks[..|tracks| - 1];
      var last := tracks[|tracks| - 1];
      assert tracks == init + [last];
      assert NoDups(init) && last !in init;
      RowsInTrackOrder(groups, init);
      RowsSnocOrder(groups, init, last);
    }
  }

  /** One more track keeps the rows in track order, its row (if any) coming last. */
  lemma RowsSnocOrder(groups: map<string, seq<Schedule.Talk>>, init: seq<string>, last: string)
    requires last !in init && InTrackOrder(Rows(groups, init), init)
    ensures InTrackOrder(Rows(groups, init + [last]), init + [last])
  {
    var rows := Rows(groups, init);
    var tracks := init + [last];
    assert tracks[..|tracks| - 1] == init;
    var r := Rows(groups, tracks);
    forall k | 0 <= k < |rows| ensures rows[k].0 in tracks && FirstIndex(tracks, rows[k].0) == FirstIndex(init, rows[k].0) < |init| {
      FirstIndexSnoc(init, last, rows[k].0);
    }
    if TalksOf(groups, last) == [] {
      assert r == rows;
    } else {
      assert r == rows + [(last, TalksOf(groups, last))];
      FirstIndexOfNew(init, last);
      forall i, j | 0 <= i < j < |r|
        ensures r[i].0 in tracks && r[j].0 in tracks && FirstIndex(tracks, r[i].0) < FirstIndex(tracks, r[j].0)
      {
        assert r[i] == rows[i];
        if j < |rows| {
          assert r[j] == rows[j];
        } else {
          assert r[j].0 == last;
        }
      }
    }
  }

  /** Over duplicate-free tracks, a track with talks has exactly one row. */
  lemma OneRowPerTrack(groups: map<string, seq<Schedule.Talk>>, tracks: seq<string>, k: string)
    requires NoDups(tracks) && k in tracks && TalksOf(groups, k) != []
    ensures var rows := Rows(groups, tracks);
      exists i :: (0 <= i < |rows| && rows[i] == (k, TalksOf(groups, k)) &&
        forall j :: 0 <= j < |rows| && j != i ==> rows[j].0 != k)
  {
    var rows := Rows(groups, tracks);
    RowsCover(groups, tracks, k);
    RowsDistinct(groups, tracks);
    var i :| 0 <= i < |rows| && rows[i].0 == k;
    forall j | 0 <= j < |rows| && j != i ensures rows[j].0 != k {
      if j < i {
        assert rows[j].0 != rows[i].0;
      } else {
        assert rows[i].0 != rows[j].0;
      }
    }
    assert rows[i] == (k, TalksOf(groups, k));
  }

  /**
   * Every group with talks gets exactly one row, and every row shows a whole group, when
   * the rows follow the displayed track order over the group keys.
   */
  lemma EveryGroupOneRow(groups: map<string, seq<Schedule.Talk>>, keys: seq<string>)
    requires NoDups(keys) && forall k :: k in keys <==> k in groups
    ensures var rows := Rows(groups, DisplayedTracks(keys));
      forall k :: k in groups && groups[k] != [] ==>
        exists i :: (0 <= i < |rows| && rows[i] == (k, groups[k]) &&
          forall j :: 0 <= j < |rows| && j != i ==> rows[j].0 != k)
    ensures forall row :: row in Rows(groups, DisplayedTracks(keys)) ==> row.0 in groups && row.1 == groups[row.0]
  {
    DisplayOrder(keys);
    var tracks := DisplayedTracks(keys);
    var rows := Rows(groups, tracks);
    forall k | k in groups && groups[k] != []
      ensures exists i :: (0 <= i < |rows| && rows[i] == (k, groups[k]) &&
        forall j :: 0 <= j < |rows| && j != i ==> rows[j].0 != k)
    {
      assert k in keys;
      OneRowPerTrack(groups, tracks, k);
    }
    forall row | row in rows ensures row.0 in groups && row.1 == groups[row.0] {
      var i :| 0 <= i < |rows| && rows[i] == row;
    }
    assert rows == Rows(groups, DisplayedTracks(keys));
  }

  /** The rows appear in the displayed track order: `TRACK_ORDER` first, then the sorted remainder. */
  lemma RowsInDisplayOrder(groups: map<string, seq<Schedule.Talk>>, keys: seq<string>)
    requires NoDups(keys)
    ensures InTrackOrder(Rows(groups, DisplayedTracks(keys)), DisplayedTracks(keys))
  {
    DisplayOrder(keys);
    RowsInTrackOrder(groups, DisplayedTracks(keys));
  }

  const MAX_CARD_TAGS: nat := 3

  /** The tags a talk card shows: none (no tag block) without tags, its first three otherwise. */
  function CardTags(tags: seq<string>): (shown: Option<seq<string>>)
    ensures shown.None? <==> tags == []
    ensures shown.Some? ==> 0 < |shown.value| <= MAX_CARD_TAGS && |shown.value| <= |tags| && shown.value == tags[..|shown.value|]
    ensures shown.Some? ==> |shown.value| == MAX_CARD_TAGS || shown.value == tags
  {
    if |tags| == 0 then None
    else Some(if |tags| < MAX_CARD_TAGS then tags else tags[..MAX_CARD_TAGS])
  }
}
