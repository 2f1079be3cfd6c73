/** Sessions of the list and cache documentation, replayed on the value-level definitions. */
module Scenarios {
  import opened ContentItems
  import opened EvictionModel

  const C1 := ContentItem(1000, 10, "Content-Type: 0", "0xA")
  const C2 := ContentItem(1004, 50, "Content-Type: 1", "110010")
  const C3 := ContentItem(1005, 180, "Content-Type: 2", "<html><p>'CMPSC132'</p></html>")
  const C4 := ContentItem(1006, 18, "another header", "111110")
  const C5 := ContentItem(1008, 2, "items", "11x1110")
  const Extra := ContentItem(1034, 2, "items", "other content")

  /** The first four inserts into an empty 200-unit list evict nothing. */
  lemma {:induction false} FirstFourInserts()
    ensures PutSpec([], 200, C1, MRU) == Transition(Inserted(C1), [C1])
    ensures PutSpec([C1], 200, C2, LRU) == Transition(Inserted(C2), [C2, C1])
    ensures PutSpec([C2, C1], 200, C4, MRU) == Transition(Inserted(C4), [C4, C2, C1])
    ensures PutSpec([C4, C2, C1], 200, C5, MRU) == Transition(Inserted(C5), [C5, C4, C2, C1])
  {
  }

  /** The fifth insert, 180 units under LRU into a list using 80, evicts 1000 and then 1004
      from the tail. */
  lemma {:induction false} FifthInsert()
    ensures PutSpec([C5, C4, C2, C1], 200, C3, LRU) == Transition(Inserted(C3), [C3, C5, C4])
  {
    var s := [C5, C4, C2, C1];
    assert Sum(s) == 80 by {
      SumCons(C5, [C4, C2, C1]); SumCons(C4, [C2, C1]); SumCons(C2, [C1]); SumCons(C1, []);
    }
    assert Sum([C5, C4, C2]) == 70 by { SumCons(C5, [C4, C2]); SumCons(C4, [C2]); SumCons(C2, []); }
    assert Sum([C5, C4]) == 20 by { SumCons(C5, [C4]); SumCons(C4, []); }
    assert s[..3] == [C5, C4, C2];
    assert [C5, C4, C2][..2] == [C5, C4];
    assert LruSurvivors([C5, C4], 200, 180) == [C5, C4];
    assert LruSurvivors([C5, C4, C2], 200, 180) == [C5, C4];
    assert LruSurvivors(s, 200, 180) == [C5, C4];
    assert !HasCid(s, 1005);
  }

  /** The sixth insert, 1000 again under MRU into a full list, evicts 1005 from the head. */
  lemma {:induction false} SixthInsert()
    ensures PutSpec([C3, C5, C4], 200, C1, MRU) == Transition(Inserted(C1), [C1, C5, C4])
  {
    var s := [C3, C5, C4];
    assert Sum(s) == 200 by { SumCons(C3, [C5, C4]); SumCons(C5, [C4]); SumCons(C4, []); }
    assert Sum([C5, C4]) == 20 by { SumCons(C5, [C4]); SumCons(C4, []); }
    assert s[1..] == [C5, C4];
    assert MruSurvivors(s, 200, 10) == [C5, C4];
    assert !HasCid(s, 1000);
  }

  /** The membership test finds 1006 and promotes it; the update then replaces 1008 by 1034,
      of the same size, and moves it to the head. */
  lemma {:induction false} LookupThenUpdate()
    ensures HasCid([C1, C5, C4], 1006)
    ensures MoveToFront([C1, C5, C4], FirstIndex([C1, C5, C4], 1006)) == [C4, C1, C5]
    ensures UpdateSpec([C4, C1, C5], 200, 1008, Extra) == Transition(Updated(Extra), [Extra, C4, C1])
    ensures Sum([Extra, C4, C1]) == 30
  {
    var s := [C1, C5, C4];
    assert s[2].cid == 1006;
    assert FirstIndex(s, 1006) == 2;
    var t := [C4, C1, C5];
    assert Sum(t) == 30 by { SumCons(C4, [C1, C5]); SumCons(C1, [C5]); SumCons(C5, []); }
    assert FirstIndex(t, 1008) == 2;
    assert t[2 := Extra] == [C4, C1, Extra];
    assert MoveToFront([C4, C1, Extra], 2) == [Extra, C4, C1];
    assert Sum([Extra, C4, C1]) == 30 by { SumCons(Extra, [C4, C1]); SumCons(C4, [C1]); SumCons(C1, []); }
  }

  /** The whole session: six successful inserts, a hit on 1006 and a successful update of
      1008 leave 1034, 1006, 1000 from the head, with 170 of the 200 units free. */
  lemma {:induction false} CacheListSession()
    ensures
      var t1 := PutSpec([], 200, C1, MRU);
      var t2 := PutSpec(t1.items, 200, C2, LRU);
      var t3 := PutSpec(t2.items, 200, C4, MRU);
      var t4 := PutSpec(t3.items, 200, C5, MRU);
      var t5 := PutSpec(t4.items, 200, C3, LRU);
      var t6 := PutSpec(t5.items, 200, C1, MRU);
      var found := HasCid(t6.items, 1006);
      var s7 := if found then MoveToFront(t6.items, FirstIndex(t6.items, 1006)) else t6.items;
      var t8 := UpdateSpec(s7, 200, 1008, Extra);
      && t1.outcome == Inserted(C1) && t2.outcome == Inserted(C2) && t3.outcome == Inserted(C4)
      && t4.outcome == Inserted(C5) && t5.outcome == Inserted(C3) && t6.outcome == Inserted(C1)
      && found
      && t8.outcome == Updated(Extra)
      && t8.items == [Extra, C4, C1]
      && 200 - Sum(t8.items) == 170
  {
    FirstFourInserts();
    FifthInsert();
    SixthInsert();
    LookupThenUpdate();
  }

  const A := ContentItem(2000, 52, "Content-Type: 2",
    "GET https://www.pro-football-reference.com/boxscores/201802040nwe.htm HTTP/1.1")
  const B := ContentItem(2001, 76, "Content-Type: 2", "GET https://giphy.com/gifs/93lCI4D0murAszeyA6/html5 HTTP/1.1")
  const C := ContentItem(2002, 11, "Content-Type: 2",
    "GET https://media.giphy.com/media/YN7akkfUNQvT1zEBhO/giphy-downsized.gif HTTP/1.1")
  const E := ContentItem(2000, 103, "Content-Type: 2",
    "GET https://www.pro-football-reference.com/boxscores/201801210phi.htm HTTP/1.1")

  /** The end of the cache session, in segment 2 of a cache with 205-unit segments holding
      2002, 2000, 2001 (66 units free): inserting an item with the resident id 2002 is
      refused, and assigning a 103-unit item with id 2000 replaces the 52-unit one and moves
      it to the head, leaving 15 units free. */
  lemma {:induction false} SegmentTwoSession()
    ensures 205 - Sum([C, A, B]) == 66
    ensures PutSpec([C, A, B], 205, C, LRU) == Transition(Duplicate(2002), [C, A, B])
    ensures UpdateSpec([C, A, B], 205, 2000, E) == Transition(Updated(E), [E, C, B])
    ensures 205 - Sum([E, C, B]) == 15
  {
    var s := [C, A, B];
    assert Sum(s) == 139 by { SumCons(C, [A, B]); SumCons(A, [B]); SumCons(B, []); }
    assert s[0].cid == 2002 && FirstIndex(s, 2002) == 0;
    assert MoveToFront(s, 0) == s;
    assert s[1].cid == 2000 && FirstIndex(s, 2000) == 1;
    assert s[1 := E] == [C, E, B];
    assert MoveToFront([C, E, B], 1) == [E, C, B];
    assert Sum([E, C, B]) == 190 by { SumCons(E, [C, B]); SumCons(C, [B]); SumCons(B, []); }
  }
}
