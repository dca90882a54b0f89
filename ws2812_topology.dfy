/** The 32-LED topology of the WS2812 test sign and the facts about it that
    the worm relies on. */
module Ws2812Topology {
  import opened Bits
  import opened Topology

  const NumLeds := 32

  /** `adjacency_refs`: an offset into Nodes per LED, or NoNeighbors. */
  const Refs: seq<byte> :=
    (([NoNeighbors, NoNeighbors, NoNeighbors, 0, NoNeighbors, NoNeighbors, NoNeighbors, NoNeighbors] +// LEDs 0-7
    [4, 8, 13, 17, 20, NoNeighbors, 24, 28]) +                  // LEDs 8-15
    ([32, NoNeighbors, 37, 41, NoNeighbors, 43, 47, 51] +       // LEDs 16-23
    [NoNeighbors, 55, 59, 63, 67, 71, NoNeighbors, NoNeighbors]))// LEDs 24-31

  /** `adjacency_nodes`: per listed LED, a count followed by that many neighbours. */
  const Nodes: seq<byte> :=
    ((((([3, 2, 11, 4] +                    // node 3
    [3, 7, 9, 12]) +                        // node 8
    [4, 8, 10, 12, 18]) +                   // node 9
    ([3, 9, 11, 18] +                       // node 10
    [2, 3, 10])) +                          // node 11
    ((([3, 8, 9, 13] +                      // node 12
    [3, 13, 15, 22]) +                      // node 14
    [3, 14, 16, 22]) +                      // node 15
    ([4, 15, 17, 21, 28] +                  // node 16
    [3, 9, 10, 17]))) +                     // node 18
    (((([1, 20] +                           // node 19
    [3, 16, 20, 28]) +                      // node 21
    [3, 14, 15, 22]) +                      // node 22
    ([3, 22, 24, 25] +                      // node 23
    [3, 23, 24, 26])) +                     // node 25
    (([3, 25, 27, 29] +                     // node 26
    [3, 26, 28, 29]) +                      // node 27
    ([3, 16, 21, 27] +                      // node 28
    [3, 26, 27, 30]))))                     // node 29

  const Table := Tables(NumLeds, Refs, Nodes)

  /** The size of the local `neighbors` buffer in the firmware's `random_next_pos`. */
  const BufferSize := 4

  /** Each LED's neighbour list, read off the table. */
  lemma Node0()
    ensures EntryInBounds(Table, 0) && Neighbors(Table, 0) == [1]
    ensures NeighborsValid(Table, 0) && 0 !in Neighbors(Table, 0)
    ensures |Neighbors(Table, 0)| == 1
  {
    assert Refs[0] == NoNeighbors;
    assert Neighbors(Table, 0) == [1];
  }

  lemma Node1()
    ensures EntryInBounds(Table, 1) && Neighbors(Table, 1) == [0, 2]
    ensures NeighborsValid(Table, 1) && 1 !in Neighbors(Table, 1)
    ensures |Neighbors(Table, 1)| == 2
  {
    assert Refs[1] == NoNeighbors;
    assert Neighbors(Table, 1) == [0, 2];
  }

  lemma Node2()
    ensures EntryInBounds(Table, 2) && Neighbors(Table, 2) == [1, 3]
    ensures NeighborsValid(Table, 2) && 2 !in Neighbors(Table, 2)
    ensures |Neighbors(Table, 2)| == 2
  {
    assert Refs[2] == NoNeighbors;
    assert Neighbors(Table, 2) == [1, 3];
  }

  lemma Node3()
    ensures EntryInBounds(Table, 3) && Neighbors(Table, 3) == [2, 11, 4]
    ensures NeighborsValid(Table, 3) && 3 !in Neighbors(Table, 3)
    ensures |Neighbors(Table, 3)| == 3
  {
    assert Refs[3] == 0 && Nodes[0] == 3;
    assert Neighbors(Table, 3) == [2, 11, 4];
  }

  lemma Node4()
    ensures EntryInBounds(Table, 4) && Neighbors(Table, 4) == [3, 5]
    ensures NeighborsValid(Table, 4) && 4 !in Neighbors(Table, 4)
    ensures |Neighbors(Table, 4)| == 2
  {
    assert Refs[4] == NoNeighbors;
    assert Neighbors(Table, 4) == [3, 5];
  }

  lemma Node5()
    ensures EntryInBounds(Table, 5) && Neighbors(Table, 5) == [4, 6]
    ensures NeighborsValid(Table, 5) && 5 !in Neighbors(Table, 5)
    ensures |Neighbors(Table, 5)| == 2
  {
    assert Refs[5] == NoNeighbors;
    assert Neighbors(Table, 5) == [4, 6];
  }

  lemma Node6()
    ensures EntryInBounds(Table, 6) && Neighbors(Table, 6) == [5, 7]
    ensures NeighborsValid(Table, 6) && 6 !in Neighbors(Table, 6)
    ensures |Neighbors(Table, 6)| == 2
  {
    assert Refs[6] == NoNeighbors;
    assert Neighbors(Table, 6) == [5, 7];
  }

  lemma Node7()
    ensures EntryInBounds(Table, 7) && Neighbors(Table, 7) == [6, 8]
    ensures NeighborsValid(Table, 7) && 7 !in Neighbors(Table, 7)
    ensures |Neighbors(Table, 7)| == 2
  {
    assert Refs[7] == NoNeighbors;
    assert Neighbors(Table, 7) == [6, 8];
  }

  lemma Node8()
    ensures EntryInBounds(Table, 8) && Neighbors(Table, 8) == [7, 9, 12]
    ensures NeighborsValid(Table, 8) && 8 !in Neighbors(Table, 8)
    ensures |Neighbors(Table, 8)| == 3
  {
    assert Refs[8] == 4 && Nodes[4] == 3;
    assert Neighbors(Table, 8) == [7, 9, 12];
  }

  lemma Node9()
    ensures EntryInBounds(Table, 9) && Neighbors(Table, 9) == [8, 10, 12, 18]
    ensures NeighborsValid(Table, 9) && 9 !in Neighbors(Table, 9)
    ensures |Neighbors(Table, 9)| == 4
  {
    assert Refs[9] == 8 && Nodes[8] == 4;
    assert Neighbors(Table, 9) == [8, 10, 12, 18];
  }

  lemma Node10()
    ensures EntryInBounds(Table, 10) && Neighbors(Table, 10) == [9, 11, 18]
    ensures NeighborsValid(Table, 10) && 10 !in Neighbors(Table, 10)
    ensures |Neighbors(Table, 10)| == 3
  {
    assert Refs[10] == 13 && Nodes[13] == 3;
    assert Neighbors(Table, 10) == [9, 11, 18];
  }

  lemma Node11()
    ensures EntryInBounds(Table, 11) && Neighbors(Table, 11) == [3, 10]
    ensures NeighborsValid(Table, 11) && 11 !in Neighbors(Table, 11)
    ensures |Neighbors(Table, 11)| == 2
  {
    assert Refs[11] == 17 && Nodes[17] == 2;
    assert Neighbors(Table, 11) == [3, 10];
  }

  lemma Node12()
    ensures EntryInBounds(Table, 12) && Neighbors(Table, 12) == [8, 9, 13]
    ensures NeighborsValid(Table, 12) && 12 !in Neighbors(Table, 12)
    ensures |Neighbors(Table, 12)| == 3
  {
    assert Refs[12] == 20 && Nodes[20] == 3;
    assert Neighbors(Table, 12) == [8, 9, 13];
  }

  lemma Node13()
    ensures EntryInBounds(Table, 13) && Neighbors(Table, 13) == [12, 14]
    ensures NeighborsValid(Table, 13) && 13 !in Neighbors(Table, 13)
    ensures |Neighbors(Table, 13)| == 2
  {
    assert Refs[13] == NoNeighbors;
    assert Neighbors(Table, 13) == [12, 14];
  }

  lemma Node14()
    ensures EntryInBounds(Table, 14) && Neighbors(Table, 14) == [13, 15, 22]
    ensures NeighborsValid(Table, 14) && 14 !in Neighbors(Table, 14)
    ensures |Neighbors(Table, 14)| == 3
  {
    assert Refs[14] == 24 && Nodes[24] == 3;
    assert Neighbors(Table, 14) == [13, 15, 22];
  }

  lemma Node15()
    ensures EntryInBounds(Table, 15) && Neighbors(Table, 15) == [14, 16, 22]
    ensures NeighborsValid(Table, 15) && 15 !in Neighbors(Table, 15)
    ensures |Neighbors(Table, 15)| == 3
  {
    assert Refs[15] == 28 && Nodes[28] == 3;
    assert Neighbors(Table, 15) == [14, 16, 22];
  }

  lemma Node16()
    ensures EntryInBounds(Table, 16) && Neighbors(Table, 16) == [15, 17, 21, 28]
    ensures NeighborsValid(Table, 16) && 16 !in Neighbors(Table, 16)
    ensures |Neighbors(Table, 16)| == 4
  {
    assert Refs[16] == 32 && Nodes[32] == 4;
    assert Neighbors(Table, 16) == [15, 17, 21, 28];
  }

  lemma Node17()
    ensures EntryInBounds(Table, 17) && Neighbors(Table, 17) == [16, 18]
    ensures NeighborsValid(Table, 17) && 17 !in Neighbors(Table, 17)
    ensures |Neighbors(Table, 17)| == 2
  {
    assert Refs[17] == NoNeighbors;
    assert Neighbors(Table, 17) == [16, 18];
  }

  lemma Node18()
    ensures EntryInBounds(Table, 18) && Neighbors(Table, 18) == [9, 10, 17]
    ensures NeighborsValid(Table, 18) && 18 !in Neighbors(Table, 18)
    ensures |Neighbors(Table, 18)| == 3
  {
    assert Refs[18] == 37 && Nodes[37] == 3;
    assert Neighbors(Table, 18) == [9, 10, 17];
  }

  lemma Node19()
    ensures EntryInBounds(Table, 19) && Neighbors(Table, 19) == [20]
    ensures NeighborsValid(Table, 19) && 19 !in Neighbors(Table, 19)
    ensures |Neighbors(Table, 19)| == 1
  {
    assert Refs[19] == 41 && Nodes[41] == 1;
    assert Neighbors(Table, 19) == [20];
  }

  lemma Node20()
    ensures EntryInBounds(Table, 20) && Neighbors(Table, 20) == [19, 21]
    ensures NeighborsValid(Table, 20) && 20 !in Neighbors(Table, 20)
    ensures |Neighbors(Table, 20)| == 2
  {
    assert Refs[20] == NoNeighbors;
    assert Neighbors(Table, 20) == [19, 21];
  }

  lemma Node21()
    ensures EntryInBounds(Table, 21) && Neighbors(Table, 21) == [16, 20, 28]
    ensures NeighborsValid(Table, 21) && 21 !in Neighbors(Table, 21)
    ensures |Neighbors(Table, 21)| == 3
  {
    assert Refs[21] == 43 && Nodes[43] == 3;
    assert Neighbors(Table, 21) == [16, 20, 28];
  }

  lemma Node22()
    ensures EntryInBounds(Table, 22) && Neighbors(Table, 22) == [14, 15, 22]
    ensures NeighborsValid(Table, 22) && 22 in Neighbors(Table, 22)
    ensures |Neighbors(Table, 22)| == 3
  {
    assert Refs[22] == 47 && Nodes[47] == 3;
    assert Neighbors(Table, 22) == [14, 15, 22];
  }

  lemma Node23()
    ensures EntryInBounds(Table, 23) && Neighbors(Table, 23) == [22, 24, 25]
    ensures NeighborsValid(Table, 23) && 23 !in Neighbors(Table, 23)
    ensures |Neighbors(Table, 23)| == 3
  {
    assert Refs[23] == 51 && Nodes[51] == 3;
    assert Neighbors(Table, 23) == [22, 24, 25];
  }

  lemma Node24()
    ensures EntryInBounds(Table, 24) && Neighbors(Table, 24) == [23, 25]
    ensures NeighborsValid(Table, 24) && 24 !in Neighbors(Table, 24)
    ensures |Neighbors(Table, 24)| == 2
  {
    assert Refs[24] == NoNeighbors;
    assert Neighbors(Table, 24) == [23, 25];
  }

  lemma Node25()
    ensures EntryInBounds(Table, 25) && Neighbors(Table, 25) == [23, 24, 26]
    ensures NeighborsValid(Table, 25) && 25 !in Neighbors(Table, 25)
    ensures |Neighbors(Table, 25)| == 3
  {
    assert Refs[25] == 55 && Nodes[55] == 3;
    assert Neighbors(Table, 25) == [23, 24, 26];
  }

  lemma Node26()
    ensures EntryInBounds(Table, 26) && Neighbors(Table, 26) == [25, 27, 29]
    ensures NeighborsValid(Table, 26) && 26 !in Neighbors(Table, 26)
    ensures |Neighbors(Table, 26)| == 3
  {
    assert Refs[26] == 59 && Nodes[59] == 3;
    assert Neighbors(Table, 26) == [25, 27, 29];
  }

  lemma Node27()
    ensures EntryInBounds(Table, 27) && Neighbors(Table, 27) == [26, 28, 29]
    ensures NeighborsValid(Table, 27) && 27 !in Neighbors(Table, 27)
    ensures |Neighbors(Table, 27)| == 3
  {
    assert Refs[27] == 63 && Nodes[63] == 3;
    assert Neighbors(Table, 27) == [26, 28, 29];
  }

  lemma Node28()
    ensures EntryInBounds(Table, 28) && Neighbors(Table, 28) == [16, 21, 27]
    ensures NeighborsValid(Table, 28) && 28 !in Neighbors(Table, 28)
    ensures |Neighbors(Table, 28)| == 3
  {
    assert Refs[28] == 67 && Nodes[67] == 3;
    assert Neighbors(Table, 28) == [16, 21, 27];
  }

  lemma Node29()
    ensures EntryInBounds(Table, 29) && Neighbors(Table, 29) == [26, 27, 30]
    ensures NeighborsValid(Table, 29) && 29 !in Neighbors(Table, 29)
    ensures |Neighbors(Table, 29)| == 3
  {
    assert Refs[29] == 71 && Nodes[71] == 3;
    assert Neighbors(Table, 29) == [26, 27, 30];
  }

  lemma Node30()
    ensures EntryInBounds(Table, 30) && Neighbors(Table, 30) == [29, 31]
    ensures NeighborsValid(Table, 30) && 30 !in Neighbors(Table, 30)
    ensures |Neighbors(Table, 30)| == 2
  {
    assert Refs[30] == NoNeighbors;
    assert Neighbors(Table, 30) == [29, 31];
  }

  lemma Node31()
    ensures EntryInBounds(Table, 31) && Neighbors(Table, 31) == [30]
    ensures NeighborsValid(Table, 31) && 31 !in Neighbors(Table, 31)
    ensures |Neighbors(Table, 31)| == 1
  {
    assert Refs[31] == NoNeighbors;
    assert Neighbors(Table, 31) == [30];
  }

  /** Per-node facts, one LED at a time. */
  lemma NodeFacts(at: int)
    requires 0 <= at < NumLeds
    ensures EntryInBounds(Table, at) && NeighborsValid(Table, at)
    ensures at in Neighbors(Table, at) <==> at == 22
    ensures |Neighbors(Table, at)| <= BufferSize
  {
    if at == 0 {
      Node0();
    } else if at == 1 {
      Node1();
    } else if at == 2 {
      Node2();
    } else if at == 3 {
      Node3();
    } else if at == 4 {
      Node4();
    } else if at == 5 {
      Node5();
    } else if at == 6 {
      Node6();
    } else if at == 7 {
      Node7();
    } else if at == 8 {
      Node8();
    } else if at == 9 {
      Node9();
    } else if at == 10 {
      Node10();
    } else if at == 11 {
      Node11();
    } else if at == 12 {
      Node12();
    } else if at == 13 {
      Node13();
    } else if at == 14 {
      Node14();
    } else if at == 15 {
      Node15();
    } else if at == 16 {
      Node16();
    } else if at == 17 {
      Node17();
    } else if at == 18 {
      Node18();
    } else if at == 19 {
      Node19();
    } else if at == 20 {
      Node20();
    } else if at == 21 {
      Node21();
    } else if at == 22 {
      Node22();
    } else if at == 23 {
      Node23();
    } else if at == 24 {
      Node24();
    } else if at == 25 {
      Node25();
    } else if at == 26 {
      Node26();
    } else if at == 27 {
      Node27();
    } else if at == 28 {
      Node28();
    } else if at == 29 {
      Node29();
    } else if at == 30 {
      Node30();
    } else if at == 31 {
      Node31();
    }
  }

  /** The table is well formed, every list fits the four-entry buffer, and the
      only LED that lists itself is 22. */
  lemma TableWellFormed()
    ensures WellFormed(Table)
    ensures forall at :: 0 <= at < NumLeds ==> |Neighbors(Table, at)| <= BufferSize
    ensures forall at :: 0 <= at < NumLeds ==> (at in Neighbors(Table, at) <==> at == 22)
  {
    forall at | 0 <= at < NumLeds
      ensures EntryInBounds(Table, at) && NeighborsValid(Table, at)
      ensures |Neighbors(Table, at)| <= BufferSize
      ensures at in Neighbors(Table, at) <==> at == 22
    {
      NodeFacts(at);
    }
  }

  /** LED 22 lists itself third: a draw selecting that slot is accepted unless
      22 is excluded, so the worm can hop from 22 onto 22. */
  lemma SelfLoopAt22(exclude: int, exclude2: int, draws: Draws)
    requires |draws| >= MaxTries && draws[0] % 3 == 2
    requires exclude != 22 && exclude2 != 22
    ensures WellFormed(Table)
    ensures NextPos(Table, 22, exclude, exclude2, draws) == (22, draws[1..])
  {
    TableWellFormed();
    Node22();
  }

  /** LED 19 has the single neighbour 20, so a hop there always lands on 20,
      whatever the exclusions, and consumes no draws. */
  lemma Node19AlwaysTwenty(exclude: int, exclude2: int, draws: Draws)
    requires |draws| >= MaxTries
    ensures WellFormed(Table)
    ensures NextPos(Table, 19, exclude, exclude2, draws) == (20, draws)
  {
    TableWellFormed();
    Node19();
  }

  /** Away from LED 22 the worm never hops onto the LED it is on. */
  lemma NoSelfHopExcept22(at: int, exclude: int, exclude2: int, draws: Draws)
    requires 0 <= at < NumLeds && at != 22 && |draws| >= MaxTries
    ensures WellFormed(Table)
    ensures NextPos(Table, at, exclude, exclude2, draws).0 != at
  {
    TableWellFormed();
    NextPosIsNeighbor(Table, at, exclude, exclude2, draws);
  }
}
