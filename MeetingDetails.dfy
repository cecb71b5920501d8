/** The selection of speakers kept by the meeting page: the toggle that
    adds or removes one speaker, and the page state that holds it. */
module MeetingDetails {
  import opened Seqs

  /** The updater of `handleSpeakerToggle`: a selected speaker is removed
      (every occurrence of it), any other speaker is appended. */
  function Toggle(prev: seq<string>, speaker: string): seq<string> {
    if speaker in prev then Filter(prev, NotEqual(speaker)) else prev + [speaker]
  }

  /** After a toggle the speaker is selected exactly when it was not
      before; every other name is selected exactly when it was before. */
  lemma ToggleMembership(prev: seq<string>, speaker: string, x: string)
    ensures x in Toggle(prev, speaker) <==> if x == speaker then speaker !in prev else x in prev
  {
    if speaker in prev && x != speaker && x in prev {
      FilterCount(prev, NotEqual(speaker), x);
      assert x in multiset(Filter(prev, NotEqual(speaker)));
    }
  }

  /** Toggling a selected speaker removes all of its occurrences and
      nothing else; toggling an unselected one puts it last and leaves the
      earlier entries in place. */
  lemma ToggleShape(prev: seq<string>, speaker: string)
    ensures speaker in prev ==>
      multiset(Toggle(prev, speaker)) == multiset(prev)[speaker := 0]
    ensures speaker !in prev ==>
      |Toggle(prev, speaker)| == |prev| + 1 &&
      Toggle(prev, speaker)[..|prev|] == prev &&
      Toggle(prev, speaker)[|prev|] == speaker
  {
    if speaker in prev {
      var r := Toggle(prev, speaker);
      forall x ensures multiset(r)[x] == if x != speaker then multiset(prev)[x] else 0 {
        FilterCount(prev, NotEqual(speaker), x);
      }
    }
  }

  /** The speakers other than the toggled one are kept, in their original
      relative order. */
  lemma ToggleKeepsOthers(prev: seq<string>, speaker: string)
    ensures Filter(Toggle(prev, speaker), NotEqual(speaker)) == Filter(prev, NotEqual(speaker))
  {
    if speaker in prev {
      FilterIdempotent(prev, NotEqual(speaker));
    } else {
      FilterAppend(prev, [speaker], NotEqual(speaker));
      assert Filter([speaker], NotEqual(speaker)) == [];
    }
  }

  /** Toggling an unselected speaker twice gives back the original
      selection. */
  lemma ToggleTwiceRestores(prev: seq<string>, speaker: string)
    requires speaker !in prev
    ensures Toggle(Toggle(prev, speaker), speaker) == prev
  {
    FilterAppend(prev, [speaker], NotEqual(speaker));
    assert Filter([speaker], NotEqual(speaker)) == [];
    FilterKeepsAll(prev, NotEqual(speaker));
  }

  /** A selection without repeated names stays without them. */
  lemma ToggleKeepsNoDuplicates(prev: seq<string>, speaker: string)
    requires NoDuplicates(prev)
    ensures NoDuplicates(Toggle(prev, speaker))
  {
    if speaker in prev {
      FilterKeepsNoDuplicates(prev, NotEqual(speaker));
    }
  }

  /** The state of the meeting page: the search query and the selected
      speakers, both empty at first. */
  class DetailsState {
    var searchQuery: string
    var selectedSpeakers: seq<string>

    constructor()
      ensures searchQuery == "" && selectedSpeakers == []
    {
      searchQuery := "";
      selectedSpeakers := [];
    }

    /** `handleSpeakerToggle`: applies the toggle to the latest selection. */
    method HandleSpeakerToggle(speaker: string)
      modifies this
      ensures selectedSpeakers == Toggle(old(selectedSpeakers), speaker)
      ensures searchQuery == old(searchQuery)
    {
      selectedSpeakers := Toggle(selectedSpeakers, speaker);
    }

    /** The setter of the search query. */
    method SetSearchQuery(query: string)
      modifies this
      ensures searchQuery == query
      ensures selectedSpeakers == old(selectedSpeakers)
    {
      searchQuery := query;
    }
  }
}
