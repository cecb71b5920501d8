/** The search and speaker-filter controls of a meeting: clearing the
    search, clearing the speaker filter, the filter panel switch, and when
    the badge and the active-filters panel show. */
module MeetingControls {
  import opened Wrappers
  import opened Seqs
  import opened MeetingUtils
  import opened MeetingDetails

  /** The controls of one meeting: its segments and whether the speaker
      panel is open. */
  class Controls {
    const segments: seq<Segment>
    var showFilters: bool

    constructor(segments: seq<Segment>)
      ensures this.segments == segments && !showFilters
    {
      this.segments := segments;
      showFilters := false;
    }

    /** The "Фильтры" button opens or closes the speaker panel. */
    method ToggleShowFilters()
      modifies this
      ensures showFilters == !old(showFilters)
    {
      showFilters := !showFilters;
    }

    /** `clearSearch`: the query becomes empty. */
    method ClearSearch(details: DetailsState)
      modifies details
      ensures details.searchQuery == ""
      ensures details.selectedSpeakers == old(details.selectedSpeakers)
    {
      details.SetSearchQuery("");
    }

    /** `clearFilters`: toggles, in order, each speaker of the meeting (as
        `getUniqueSpeakers` lists them) that the selection seen at the click
        holds. Returned: the speakers it
        toggled. Each toggle acts on the latest selection, so the meeting's
        speakers leave the selection and every other name stays. */
    method ClearFilters(details: DetailsState) returns (toggled: seq<string>)
      modifies details
      ensures toggled == Filter(UniqueSpeakersOf(segments), InSeq(old(details.selectedSpeakers)))
      ensures details.selectedSpeakers == Filter(old(details.selectedSpeakers), NotIn(UniqueSpeakersOf(segments)))
      ensures details.searchQuery == old(details.searchQuery)
    {
      var uniqueSpeakers := GetUniqueSpeakers(segments);
      var selectedSpeakers := details.selectedSpeakers;
      toggled := [];
      assert uniqueSpeakers[..0] == [];
      FilterKeepsAll(selectedSpeakers, NotIn(uniqueSpeakers[..0]));
      for i := 0 to |uniqueSpeakers|
        invariant toggled == Filter(uniqueSpeakers[..i], InSeq(selectedSpeakers))
        invariant details.selectedSpeakers == Filter(selectedSpeakers, NotIn(uniqueSpeakers[..i]))
        invariant details.searchQuery == old(details.searchQuery)
      {
        var speaker := uniqueSpeakers[i];
        if speaker in selectedSpeakers {
          ClearStepSelected(selectedSpeakers, uniqueSpeakers, i);
          details.HandleSpeakerToggle(speaker);
          toggled := toggled + [speaker];
        } else {
          ClearStepUnselected(selectedSpeakers, uniqueSpeakers, i);
        }
      }
      assert uniqueSpeakers[..|uniqueSpeakers|] == uniqueSpeakers;
    }
  }

  /** One step of `clearFilters` for a selected speaker: it is still in the
      selection, and toggling it removes it. */
  lemma ClearStepSelected(captured: seq<string>, unique: seq<string>, i: nat)
    requires NoDuplicates(unique) && i < |unique| && unique[i] in captured
    ensures unique[i] in Filter(captured, NotIn(unique[..i]))
    ensures Toggle(Filter(captured, NotIn(unique[..i])), unique[i]) == Filter(captured, NotIn(unique[..i + 1]))
    ensures Filter(unique[..i + 1], InSeq(captured)) == Filter(unique[..i], InSeq(captured)) + [unique[i]]
  {
    var speaker := unique[i];
    assert unique[..i + 1] == unique[..i] + [speaker];
    FilterAppend(unique[..i], [speaker], InSeq(captured));
    FilterCount(captured, NotIn(unique[..i]), speaker);
    assert speaker in multiset(Filter(captured, NotIn(unique[..i])));
    FilterCompose(captured, NotIn(unique[..i]), NotEqual(speaker), NotIn(unique[..i + 1]));
  }

  /** One step of `clearFilters` for an unselected speaker: nothing is
      toggled and nothing changes. */
  lemma ClearStepUnselected(captured: seq<string>, unique: seq<string>, i: nat)
    requires i < |unique| && unique[i] !in captured
    ensures Filter(captured, NotIn(unique[..i])) == Filter(captured, NotIn(unique[..i + 1]))
    ensures Filter(unique[..i + 1], InSeq(captured)) == Filter(unique[..i], InSeq(captured))
  {
    assert unique[..i + 1] == unique[..i] + [unique[i]];
    FilterAppend(unique[..i], [unique[i]], InSeq(captured));
    FilterCongruent(captured, NotIn(unique[..i]), NotIn(unique[..i + 1]));
  }

  /** After `clearFilters` no speaker of the meeting is selected; a selected
      name that no segment of the meeting carries stays selected, as often
      as it was. */
  lemma ClearFiltersOutcome(segments: seq<Segment>, selected: seq<string>, x: string)
    ensures var cleared := Filter(selected, NotIn(UniqueSpeakersOf(segments)));
      multiset(cleared)[x] == if x != "" && HasSpeaker(segments, x) then 0 else multiset(selected)[x]
  {
    FilterCount(selected, NotIn(UniqueSpeakersOf(segments)), x);
  }

  /** `clearFilters` toggles each selected speaker of the meeting exactly
      once and never an unselected one. */
  lemma ClearFiltersTogglesOnce(segments: seq<Segment>, selected: seq<string>)
    ensures var toggled := Filter(UniqueSpeakersOf(segments), InSeq(selected));
      NoDuplicates(toggled) &&
      forall x :: x in toggled <==> x in selected && x != "" && HasSpeaker(segments, x)
  {
    var unique := UniqueSpeakersOf(segments);
    FilterKeepsNoDuplicates(unique, InSeq(selected));
    forall x | x in selected && x != "" && HasSpeaker(segments, x)
      ensures x in Filter(unique, InSeq(selected))
    {
      FilterCount(unique, InSeq(selected), x);
      assert x in multiset(Filter(unique, InSeq(selected)));
    }
  }

  /** The count badge on the filter button: shown with the number of
      selected speakers when there is at least one, absent otherwise. */
  function FilterBadge(selectedSpeakers: seq<string>): (badge: Option<nat>)
    ensures badge.Some? <==> selectedSpeakers != []
    ensures badge.Some? ==> badge.value == |selectedSpeakers| && badge.value > 0
  {
    if |selectedSpeakers| > 0 then Some(|selectedSpeakers|) else None
  }

  /** After a toggle the badge counts the new selection: one more for an
      unselected speaker; for a selected one, every occurrence fewer, which
      is exactly one fewer in a selection without repeats. The badge goes
      away when nobody is left. */
  lemma BadgeAfterToggle(prev: seq<string>, speaker: string)
    ensures speaker !in prev ==> FilterBadge(Toggle(prev, speaker)) == Some(|prev| + 1)
    ensures speaker in prev ==>
      var left := |prev| - multiset(prev)[speaker];
      FilterBadge(Toggle(prev, speaker)) == if left == 0 then None else Some(left)
    ensures speaker in prev && NoDuplicates(prev) ==>
      FilterBadge(Toggle(prev, speaker)) == if |prev| == 1 then None else Some(|prev| - 1)
  {
    FilterNotEqualLength(prev, speaker);
    if speaker in prev && NoDuplicates(prev) {
      NoDuplicatesCount(prev, speaker);
    }
  }

  /** The active-filters panel shows when the query is non-empty (a
      whitespace query counts) or a speaker is selected. */
  function ActiveFiltersShown(searchQuery: string, selectedSpeakers: seq<string>): (shown: bool)
    ensures !shown <==> searchQuery == [] && selectedSpeakers == []
  {
    searchQuery != "" || |selectedSpeakers| > 0
  }

  /** After clearing the search and then the speakers, the active-filters
      panel is hidden exactly when every selected name is a (non-empty)
      speaker of the meeting; any other name stays selected and keeps the
      panel open. */
  lemma ClearingBothHidesPanel(segments: seq<Segment>, selected: seq<string>)
    ensures !ActiveFiltersShown("", Filter(selected, NotIn(UniqueSpeakersOf(segments)))) <==>
      forall i :: 0 <= i < |selected| ==> selected[i] != "" && HasSpeaker(segments, selected[i])
  {
    var unique := UniqueSpeakersOf(segments);
    var cleared := Filter(selected, NotIn(unique));
    if forall i :: 0 <= i < |selected| ==> selected[i] != "" && HasSpeaker(segments, selected[i]) {
      FilterNone(selected, NotIn(unique));
    } else {
      var i :| 0 <= i < |selected| && !(selected[i] != "" && HasSpeaker(segments, selected[i]));
      FilterCount(selected, NotIn(unique), selected[i]);
      assert selected[i] in multiset(selected);
      assert selected[i] in multiset(cleared);
    }
  }
}
