/** Counting by marks: where they are set, and how often. */
module Counting {

  function Positions(marks: seq<bool>): set<int> {
    set i | 0 <= i < |marks| && marks[i]
  }

  lemma PositionsMore(marks: seq<bool>, mark: bool)
    ensures |Positions(marks + [mark])| == |Positions(marks)| + if mark then 1 else 0
  {
    assert Positions(marks + [mark]) == Positions(marks) + if mark then {|marks|} else {};
  }
}
