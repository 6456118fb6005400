// Markers: every traversal draws a fresh mark from the graph and stamps the blocks it has visited.
module Marking {

  // The marks stored in the blocks (BasicBlock is a Marker) and the counter of the graph.
  class BlockMarks {
    var counter: nat
    var marks: seq<nat>

    constructor (n: nat)
      ensures Valid() && |marks| == n
    {
      counter, marks := 0, seq(n, _ => 0);
    }

    // No block carries a mark that has not been handed out yet.
    ghost predicate Valid()
      reads this
    {
      forall b :: 0 <= b < |marks| ==> marks[b] <= counter
    }

    // A new mark is carried by no block.
    method NewMarker() returns (m: nat)
      requires Valid()
      modifies this`counter
      ensures Valid() && m == counter == old(counter) + 1
      ensures forall b :: 0 <= b < |marks| ==> marks[b] != m
    {
      counter := counter + 1;
      m := counter;
    }

    method Mark(b: nat, m: nat)
      requires Valid() && b < |marks| && m <= counter
      modifies this`marks
      ensures Valid() && marks == old(marks)[b := m]
    {
      marks := marks[b := m];
    }

    predicate IsMarked(b: nat, m: nat)
      reads this
      requires b < |marks|
    {
      marks[b] == m
    }
  }
}
