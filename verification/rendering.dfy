/**
  The one client of the lookup: the list screen asks for the details of every index
  from 0 to the list's size and shows a card for each answer that is present.
 */
module Rendering {

  import opened HogwartsViewModel

  /** The cards the list shows for state `s`, in index order. */
  method CardsFor(s: HogwartsState) returns (cards: seq<CharacterDetails>)
    ensures |cards| == |s.characters|
    ensures forall i :: 0 <= i < |cards| ==> Unproject(cards[i]) == s.characters[i]
  {
    cards := [];
    var ind := 0;
    while ind < |s.characters|
      invariant 0 <= ind <= |s.characters|
      invariant |cards| == ind
      invariant forall i :: 0 <= i < ind ==> cards[i] == Project(s.characters[i])
    {
      var details := GetCharactersDetails(s, ind);
      if details.Some? {
        cards := cards + [details.value];
      }
      ind := ind + 1;
    }
    forall i | 0 <= i < |cards|
      ensures Unproject(cards[i]) == s.characters[i]
    {
      ProjectRoundTrip(s.characters[i], cards[i]);
    }
  }
}
