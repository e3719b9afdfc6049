/** What a filtering loop must keep, said without the loop: every wanted element, once and in order. */
module Selections {
  /** Where the wanted elements stand: all their places and no other, ascending. */
  ghost predicate PlacesOf<T>(all: seq<T>, wanted: T -> bool, places: seq<int>) {
    && (forall j :: 0 <= j < |places| ==> 0 <= places[j] < |all|)
    && (forall i, j :: 0 <= i < j < |places| ==> places[i] < places[j])
    && (forall i :: 0 <= i < |all| ==> (wanted(all[i]) <==> i in places))
  }

  ghost predicate MadeFrom<T, U>(all: seq<T>, makes: (T, U) -> bool, part: seq<U>, places: seq<int>) {
    |part| == |places| && forall j :: 0 <= j < |part| ==> 0 <= places[j] < |all| && makes(all[places[j]], part[j])
  }

  ghost predicate SelectsAt<T, U>(all: seq<T>, wanted: T -> bool, makes: (T, U) -> bool, part: seq<U>,
                                  places: seq<int>) {
    PlacesOf(all, wanted, places) && MadeFrom(all, makes, part, places)
  }

  /** The part is made of the wanted elements, one from each, in their order. */
  ghost predicate Selects<T, U>(all: seq<T>, wanted: T -> bool, makes: (T, U) -> bool, part: seq<U>) {
    exists places :: SelectsAt(all, wanted, makes, part, places)
  }

  lemma SelectsNone<T, U>(wanted: T -> bool, makes: (T, U) -> bool)
    ensures Selects([], wanted, makes, [])
  {
    var places: seq<int> := [];
    assert SelectsAt([], wanted, makes, [], places);
  }

  lemma PlacesNext<T>(all: seq<T>, last: T, wanted: T -> bool, places: seq<int>)
    requires PlacesOf(all, wanted, places)
    ensures PlacesOf(all + [last], wanted, if wanted(last) then places + [|all|] else places)
  {
    var now := if wanted(last) then places + [|all|] else places;
    assert |all| !in places;
    forall i | 0 <= i < |all + [last]|
      ensures wanted((all + [last])[i]) <==> i in now
    {
      assert i in now <==> i in places || (wanted(last) && i == |all|);
    }
  }

  lemma MadeNext<T, U>(all: seq<T>, last: T, makes: (T, U) -> bool, part: seq<U>, made: U, places: seq<int>)
    requires MadeFrom(all, makes, part, places)
    ensures MadeFrom(all + [last], makes, part, places)
    ensures makes(last, made) ==> MadeFrom(all + [last], makes, part + [made], places + [|all|])
  {
    forall j | 0 <= j < |places|
      ensures 0 <= places[j] < |all| && (all + [last])[places[j]] == all[places[j]]
    {
      assert makes(all[places[j]], part[j]);
    }
  }

  lemma SelectsOn<T, U>(all: seq<T>, last: T, wanted: T -> bool, makes: (T, U) -> bool, part: seq<U>)
    requires Selects(all, wanted, makes, part) && !wanted(last)
    ensures Selects(all + [last], wanted, makes, part)
  {
    var places :| SelectsAt(all, wanted, makes, part, places);
    PlacesNext(all, last, wanted, places);
    hide PlacesOf;
    assert MadeFrom(all + [last], makes, part, places);
    assert SelectsAt(all + [last], wanted, makes, part, places);
  }

  lemma SelectsOne<T, U>(all: seq<T>, last: T, wanted: T -> bool, makes: (T, U) -> bool, part: seq<U>, made: U)
    requires Selects(all, wanted, makes, part) && wanted(last) && makes(last, made)
    ensures Selects(all + [last], wanted, makes, part + [made])
  {
    hide PlacesOf, MadeFrom;
    var places :| SelectsAt(all, wanted, makes, part, places);
    PlacesNext(all, last, wanted, places);
    MadeNext(all, last, makes, part, made, places);
    assert SelectsAt(all + [last], wanted, makes, part + [made], places + [|all|]);
  }

  /** Two lists whose elements correspond select the same. */
  lemma SelectsAlike<T, V, U>(all: seq<T>, wanted: T -> bool, makes: (T, U) -> bool, others: seq<V>,
                              wantedToo: V -> bool, makesToo: (V, U) -> bool, part: seq<U>)
    requires Selects(all, wanted, makes, part) && |all| == |others|
    requires forall i :: 0 <= i < |all| ==> (wanted(all[i]) <==> wantedToo(others[i]))
    requires forall i, u :: 0 <= i < |all| && makes(all[i], u) ==> makesToo(others[i], u)
    ensures Selects(others, wantedToo, makesToo, part)
  {
    var places :| SelectsAt(all, wanted, makes, part, places);
    assert SelectsAt(others, wantedToo, makesToo, part, places);
  }
}
