/** The 25-LED topology of the twaeng_pop sign and the facts about it that the
    worm relies on. */
module TwaengTopology {
  import opened Bits
  import opened Topology

  const NumLeds := 25

  /** `adjacency_refs`: an offset into Nodes per LED, or NoNeighbors. */
  const Refs: seq<byte> :=
    ((([NoNeighbors, 0, 4, NoNeighbors, 8] +                    // LEDs 0-4
    [11, 15, 19, 23, 27]) +                                     // LEDs 5-9
    [31, 34, 38, 42, 46]) +                                     // LEDs 10-14
    ([52, 57, 59, 63, 66] +                                     // LEDs 15-19
    [71, 76, 79, 84, NoNeighbors]))                             // LEDs 20-24

  /** `adjacency_nodes`: per listed LED, a count followed by that many neighbours. */
  const Nodes: seq<byte> :=
    ((((([3, 0, 2, 5] +                     // node 1
    [3, 1, 3, 5]) +                         // node 2
    [2, 3, 7]) +                            // node 4
    (([3, 1, 2, 6] +                        // node 5
    [3, 5, 7, 9]) +                         // node 6
    [3, 4, 6, 8])) +                        // node 7
    ((([3, 7, 9, 10] +                      // node 8
    [3, 6, 8, 11]) +                        // node 9
    [2, 8, 12]) +                           // node 10
    ([3, 9, 12, 15] +                       // node 11
    [3, 10, 11, 13]))) +                    // node 12
    (((([3, 12, 14, 18] +                   // node 13
    [5, 11, 12, 13, 15, 17]) +              // node 14
    [4, 11, 14, 16, 17]) +                  // node 15
    (([1, 15] +                             // node 16
    [3, 14, 15, 20]) +                      // node 17
    [2, 13, 19])) +                         // node 18
    ((([4, 18, 20, 21, 22] +                // node 19
    [4, 17, 19, 22, 23]) +                  // node 20
    [2, 19, 22]) +                          // node 21
    ([4, 19, 20, 21, 23] +                  // node 22
    [3, 20, 22, 24]))))                     // node 23

  const Table := Tables(NumLeds, Refs, Nodes)

  /** The size of the local `neighbors` buffer in the firmware's `random_next_pos`. */
  const SourceBufferSize := 4
  /** The size the buffer needs so that every neighbour list fits: the largest degree. */
  const WalkBufferSize := 5

  /** Each LED's neighbour list, read off the table. */
  lemma Node0()
    ensures EntryInBounds(Table, 0) && Neighbors(Table, 0) == [1]
    ensures NeighborsValid(Table, 0) && 0 !in Neighbors(Table, 0)
    ensures |Neighbors(Table, 0)| == 1
  {
    assert Refs[0] == NoNeighbors;
    assert Neighbors(Table, 0) == [1];
  }

  lemma Node1()
    ensures EntryInBounds(Table, 1) && Neighbors(Table, 1) == [0, 2, 5]
    ensures NeighborsValid(Table, 1) && 1 !in Neighbors(Table, 1)
    ensures |Neighbors(Table, 1)| == 3
  {
    assert Refs[1] == 0 && Nodes[0] == 3;
    assert Neighbors(Table, 1) == [0, 2, 5];
  }

  lemma Node2()
    ensures EntryInBounds(Table, 2) && Neighbors(Table, 2) == [1, 3, 5]
    ensures NeighborsValid(Table, 2) && 2 !in Neighbors(Table, 2)
    ensures |Neighbors(Table, 2)| == 3
  {
    assert Refs[2] == 4 && Nodes[4] == 3;
    assert Neighbors(Table, 2) == [1, 3, 5];
  }

  lemma Node3()
    ensures EntryInBounds(Table, 3) && Neighbors(Table, 3) == [2, 4]
    ensures NeighborsValid(Table, 3) && 3 !in Neighbors(Table, 3)
    ensures |Neighbors(Table, 3)| == 2
  {
    assert Refs[3] == NoNeighbors;
    assert Neighbors(Table, 3) == [2, 4];
  }

  lemma Node4()
    ensures EntryInBounds(Table, 4) && Neighbors(Table, 4) == [3, 7]
    ensures NeighborsValid(Table, 4) && 4 !in Neighbors(Table, 4)
    ensures |Neighbors(Table, 4)| == 2
  {
    assert Refs[4] == 8 && Nodes[8] == 2;
    assert Neighbors(Table, 4) == [3, 7];
  }

  lemma Node5()
    ensures EntryInBounds(Table, 5) && Neighbors(Table, 5) == [1, 2, 6]
    ensures NeighborsValid(Table, 5) && 5 !in Neighbors(Table, 5)
    ensures |Neighbors(Table, 5)| == 3
  {
    assert Refs[5] == 11 && Nodes[11] == 3;
    assert Neighbors(Table, 5) == [1, 2, 6];
  }

  lemma Node6()
    ensures EntryInBounds(Table, 6) && Neighbors(Table, 6) == [5, 7, 9]
    ensures NeighborsValid(Table, 6) && 6 !in Neighbors(Table, 6)
    ensures |Neighbors(Table, 6)| == 3
  {
    assert Refs[6] == 15 && Nodes[15] == 3;
    assert Neighbors(Table, 6) == [5, 7, 9];
  }

  lemma Node7()
    ensures EntryInBounds(Table, 7) && Neighbors(Table, 7) == [4, 6, 8]
    ensures NeighborsValid(Table, 7) && 7 !in Neighbors(Table, 7)
    ensures |Neighbors(Table, 7)| == 3
  {
    assert Refs[7] == 19 && Nodes[19] == 3;
    assert Neighbors(Table, 7) == [4, 6, 8];
  }

  lemma Node8()
    ensures EntryInBounds(Table, 8) && Neighbors(Table, 8) == [7, 9, 10]
    ensures NeighborsValid(Table, 8) && 8 !in Neighbors(Table, 8)
    ensures |Neighbors(Table, 8)| == 3
  {
    assert Refs[8] == 23 && Nodes[23] == 3;
    assert Neighbors(Table, 8) == [7, 9, 10];
  }

  lemma Node9()
    ensures EntryInBounds(Table, 9) && Neighbors(Table, 9) == [6, 8, 11]
    ensures NeighborsValid(Table, 9) && 9 !in Neighbors(Table, 9)
    ensures |Neighbors(Table, 9)| == 3
  {
    assert Refs[9] == 27 && Nodes[27] == 3;
    assert Neighbors(Table, 9) == [6, 8, 11];
  }

  lemma Node10()
    ensures EntryInBounds(Table, 10) && Neighbors(Table, 10) == [8, 12]
    ensures NeighborsValid(Table, 10) && 10 !in Neighbors(Table, 10)
    ensures |Neighbors(Table, 10)| == 2
  {
    assert Refs[10] == 31 && Nodes[31] == 2;
    assert Neighbors(Table, 10) == [8, 12];
  }

  lemma Node11()
    ensures EntryInBounds(Table, 11) && Neighbors(Table, 11) == [9, 12, 15]
    ensures NeighborsValid(Table, 11) && 11 !in Neighbors(Table, 11)
    ensures |Neighbors(Table, 11)| == 3
  {
    assert Refs[11] == 34 && Nodes[34] == 3;
    assert Neighbors(Table, 11) == [9, 12, 15];
  }

  lemma Node12()
    ensures EntryInBounds(Table, 12) && Neighbors(Table, 12) == [10, 11, 13]
    ensures NeighborsValid(Table, 12) && 12 !in Neighbors(Table, 12)
    ensures |Neighbors(Table, 12)| == 3
  {
    assert Refs[12] == 38 && Nodes[38] == 3;
    assert Neighbors(Table, 12) == [10, 11, 13];
  }

  lemma Node13()
    ensures EntryInBounds(Table, 13) && Neighbors(Table, 13) == [12, 14, 18]
    ensures NeighborsValid(Table, 13) && 13 !in Neighbors(Table, 13)
    ensures |Neighbors(Table, 13)| == 3
  {
    assert Refs[13] == 42 && Nodes[42] == 3;
    assert Neighbors(Table, 13) == [12, 14, 18];
  }

  lemma Node14()
    ensures EntryInBounds(Table, 14) && Neighbors(Table, 14) == [11, 12, 13, 15, 17]
    ensures NeighborsValid(Table, 14) && 14 !in Neighbors(Table, 14)
    ensures |Neighbors(Table, 14)| == 5
  {
    assert Refs[14] == 46 && Nodes[46] == 5;
    assert Neighbors(Table, 14) == [11, 12, 13, 15, 17];
  }

  lemma Node15()
    ensures EntryInBounds(Table, 15) && Neighbors(Table, 15) == [11, 14, 16, 17]
    ensures NeighborsValid(Table, 15) && 15 !in Neighbors(Table, 15)
    ensures |Neighbors(Table, 15)| == 4
  {
    assert Refs[15] == 52 && Nodes[52] == 4;
    assert Neighbors(Table, 15) == [11, 14, 16, 17];
  }

  lemma Node16()
    ensures EntryInBounds(Table, 16) && Neighbors(Table, 16) == [15]
    ensures NeighborsValid(Table, 16) && 16 !in Neighbors(Table, 16)
    ensures |Neighbors(Table, 16)| == 1
  {
    assert Refs[16] == 57 && Nodes[57] == 1;
    assert Neighbors(Table, 16) == [15];
  }

  lemma Node17()
    ensures EntryInBounds(Table, 17) && Neighbors(Table, 17) == [14, 15, 20]
    ensures NeighborsValid(Table, 17) && 17 !in Neighbors(Table, 17)
    ensures |Neighbors(Table, 17)| == 3
  {
    assert Refs[17] == 59 && Nodes[59] == 3;
    assert Neighbors(Table, 17) == [14, 15, 20];
  }

  lemma Node18()
    ensures EntryInBounds(Table, 18) && Neighbors(Table, 18) == [13, 19]
    ensures NeighborsValid(Table, 18) && 18 !in Neighbors(Table, 18)
    ensures |Neighbors(Table, 18)| == 2
  {
    assert Refs[18] == 63 && Nodes[63] == 2;
    assert Neighbors(Table, 18) == [13, 19];
  }

  lemma Node19()
    ensures EntryInBounds(Table, 19) && Neighbors(Table, 19) == [18, 20, 21, 22]
    ensures NeighborsValid(Table, 19) && 19 !in Neighbors(Table, 19)
    ensures |Neighbors(Table, 19)| == 4
  {
    assert Refs[19] == 66 && Nodes[66] == 4;
    assert Neighbors(Table, 19) == [18, 20, 21, 22];
  }

  lemma Node20()
    ensures EntryInBounds(Table, 20) && Neighbors(Table, 20) == [17, 19, 22, 23]
    ensures NeighborsValid(Table, 20) && 20 !in Neighbors(Table, 20)
    ensures |Neighbors(Table, 20)| == 4
  {
    assert Refs[20] == 71 && Nodes[71] == 4;
    assert Neighbors(Table, 20) == [17, 19, 22, 23];
  }

  lemma Node21()
    ensures EntryInBounds(Table, 21) && Neighbors(Table, 21) == [19, 22]
    ensures NeighborsValid(Table, 21) && 21 !in Neighbors(Table, 21)
    ensures |Neighbors(Table, 21)| == 2
  {
    assert Refs[21] == 76 && Nodes[76] == 2;
    assert Neighbors(Table, 21) == [19, 22];
  }

  lemma Node22()
    ensures EntryInBounds(Table, 22) && Neighbors(Table, 22) == [19, 20, 21, 23]
    ensures NeighborsValid(Table, 22) && 22 !in Neighbors(Table, 22)
    ensures |Neighbors(Table, 22)| == 4
  {
    assert Refs[22] == 79 && Nodes[79] == 4;
    assert Neighbors(Table, 22) == [19, 20, 21, 23];
  }

  lemma Node23()
    ensures EntryInBounds(Table, 23) && Neighbors(Table, 23) == [20, 22, 24]
    ensures NeighborsValid(Table, 23) && 23 !in Neighbors(Table, 23)
    ensures |Neighbors(Table, 23)| == 3
  {
    assert Refs[23] == 84 && Nodes[84] == 3;
    assert Neighbors(Table, 23) == [20, 22, 24];
  }

  lemma Node24()
    ensures EntryInBounds(Table, 24) && Neighbors(Table, 24) == [23]
    ensures NeighborsValid(Table, 24) && 24 !in Neighbors(Table, 24)
    ensures |Neighbors(Table, 24)| == 1
  {
    assert Refs[24] == NoNeighbors;
    assert Neighbors(Table, 24) == [23];
  }

  /** Per-node facts, one LED at a time. */
  lemma NodeFacts(at: int)
    requires 0 <= at < NumLeds
    ensures EntryInBounds(Table, at) && NeighborsValid(Table, at)
    ensures at !in Neighbors(Table, at)
    ensures |Neighbors(Table, at)| <= WalkBufferSize
  {
    if at == 0 {
      Node0();
    } else if at == 1 {
      Node1();
    } else if at == 2 {
      Node2();
    } else if at == 3 {
      Node3();
    } else if at == 4 {
      Node4();
    } else if at == 5 {
      Node5();
    } else if at == 6 {
      Node6();
    } else if at == 7 {
      Node7();
    } else if at == 8 {
      Node8();
    } else if at == 9 {
      Node9();
    } else if at == 10 {
      Node10();
    } else if at == 11 {
      Node11();
    } else if at == 12 {
      Node12();
    } else if at == 13 {
      Node13();
    } else if at == 14 {
      Node14();
    } else if at == 15 {
      Node15();
    } else if at == 16 {
      Node16();
    } else if at == 17 {
      Node17();
    } else if at == 18 {
      Node18();
    } else if at == 19 {
      Node19();
    } else if at == 20 {
      Node20();
    } else if at == 21 {
      Node21();
    } else if at == 22 {
      Node22();
    } else if at == 23 {
      Node23();
    } else if at == 24 {
      Node24();
    }
  }

  /** The table is well formed, no LED lists itself, and every list fits a
      buffer of WalkBufferSize entries. */
  lemma TableWellFormed()
    ensures WellFormed(Table)
    ensures forall at :: 0 <= at < NumLeds ==> at !in Neighbors(Table, at)
    ensures forall at :: 0 <= at < NumLeds ==> |Neighbors(Table, at)| <= WalkBufferSize
  {
    forall at | 0 <= at < NumLeds
      ensures EntryInBounds(Table, at) && NeighborsValid(Table, at)
      ensures at !in Neighbors(Table, at) && |Neighbors(Table, at)| <= WalkBufferSize
    {
      NodeFacts(at);
    }
  }

  /** LED 14 lists five neighbours, one more than the firmware's four-entry
      buffer holds: `random_next_pos(14, ...)` writes past the end of it. */
  lemma Node14OverflowsBuffer()
    ensures EntryInBounds(Table, 14)
    ensures |Neighbors(Table, 14)| == 5 > SourceBufferSize
  {
    Node14();
  }

  /** The nodes without an entry are the two ends of the string and LED 3;
      the fallback gives each its clamped linear neighbours. */
  lemma FallbackNeighbors()
    ensures forall at :: 0 <= at < NumLeds ==> (Refs[at] == NoNeighbors <==> at == 0 || at == 3 || at == 24)
    ensures Neighbors(Table, 0) == [1] && Neighbors(Table, 3) == [2, 4] && Neighbors(Table, 24) == [23]
  {
  }

  /** Since no LED lists itself, the worm never hops onto the LED it is on. */
  lemma NoSelfHop(at: int, exclude: int, exclude2: int, draws: Draws)
    requires 0 <= at < NumLeds && |draws| >= MaxTries
    ensures WellFormed(Table)
    ensures NextPos(Table, at, exclude, exclude2, draws).0 != at
  {
    TableWellFormed();
    NextPosIsNeighbor(Table, at, exclude, exclude2, draws);
  }

  /** LED 16 has the single neighbour 15, so a hop there always lands on 15,
      whatever the exclusions, and consumes no draws. */
  lemma Node16AlwaysFifteen(exclude: int, exclude2: int, draws: Draws)
    requires |draws| >= MaxTries
    ensures WellFormed(Table)
    ensures NextPos(Table, 16, exclude, exclude2, draws) == (15, draws)
  {
    TableWellFormed();
    Node16();
  }
}
